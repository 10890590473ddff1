/**
 LEPTA geolocation of one track. For every record the DEM postings under the beam are cropped out,
 filtered, limited to a range window and reduced to a point of closest approach, from which the
 slope correction and the height follow. Square root is any function that satisfies IsSqrt; the
 median filter, the dh/dt correction and the Doppler term are switched off.
 */
module Lepta {
  import opened Numbers
  import opened Axes
  import opened DemCrop

  datatype Posting = Posting(x: real, y: real, z: Num)

  /** The configuration switches, in the order in which the code tests them. */
  datatype Switches = Switches(fullLeadingEdge: bool, windowAroundRetracking: bool,
                               meanXY: bool, minDistXY: bool,
                               meanZ: bool, medianZ: bool, minDistZ: bool, medianAroundPoint: bool)

  /** Everything that does not change from record to record; median, around and project are foreign code. */
  datatype Env = Env(dem: Dem, half: real, reach: real, deltaRangeOffset: real, refBin: real, rangeBin: real,
                     use: Switches, sqrt: real -> real, median: seq<real> -> real, around: (real, real) -> Num,
                     project: (real, real) -> Option<(real, real)>)
  {
    /** half is half the across-track beam width, and the crop reaches one bin further. */
    ghost predicate Valid() {
      dem.Valid() && half >= 0.0 && reach == half + dem.binsize && IsSqrt(sqrt)
    }
  }

  /** One 20 Hz record: nadir position, altitude, DEM height at nadir, ranges, leading edge. */
  datatype Record = Record(used: bool, x: real, y: real, alt: real, nadirHeight: Num, range: Num, retrack: Num,
                           edgeStart: real, edgeStop: real, surface: int, lat: real, lon: real)

  ghost predicate IsSqrt(f: real -> real) {
    forall s :: 0.0 <= s ==> f(s) >= 0.0 && f(s) * f(s) == s
  }

  // ---- Distances ----

  function Dist2(x1: real, y1: real, z1: real, x2: real, y2: real, z2: real): real {
    Sq(x2 - x1) + Sq(y2 - y1) + Sq(z2 - z1)
  }

  /** calculate_distances from the satellite. */
  function ToSat(env: Env, rec: Record, p: Posting): real {
    if p.z.NaN? then 0.0 else env.sqrt(Dist2(rec.x, rec.y, rec.alt, p.x, p.y, p.z.value))
  }

  /** calculate_distances from nadir, tested against half the beam width; a NaN compares false. */
  predicate InBeam(env: Env, rec: Record, p: Posting) {
    rec.nadirHeight.Val? && p.z.Val? &&
    env.sqrt(Dist2(rec.x, rec.y, rec.nadirHeight.value, p.x, p.y, p.z.value)) < env.half
  }

  /** The distance from the satellite as a function of the posting, and the beam test likewise. */
  function Ranger(env: Env, rec: Record): (f: Posting -> real)
    ensures forall p :: f(p) == ToSat(env, rec, p)
  {
    p => ToSat(env, rec, p)
  }

  function BeamTest(env: Env, rec: Record): (f: Posting -> bool)
    ensures forall p :: f(p) == InBeam(env, rec, p)
  {
    p => InBeam(env, rec, p)
  }

  predicate HasHeight(p: Posting) {
    p.z.Val?
  }

  predicate SensibleHeight(p: Posting) {
    p.z.Val? && p.z.value < 5000.0
  }

  // ---- The surviving postings ----

  function Keep(s: seq<Posting>, f: Posting -> bool): (k: seq<Posting>)
    ensures forall p :: p in k <==> p in s && f(p)
    ensures |k| > 0 ==> k[0] in k
  {
    if |s| == 0 then []
    else if f(s[0]) then [s[0]] + Keep(s[1..], f) else Keep(s[1..], f)
  }

  function At(d: Dem, r: nat, c: nat): Posting
    requires r < |d.ydem| && c < |d.xdem| && r < |d.z| && c < |d.z[r]|
  {
    Posting(d.xdem[c], d.ydem[r], d.z[r][c])
  }

  function RowOf(d: Dem, r: nat, c0: nat, c1: nat): (s: seq<Posting>)
    requires r < |d.ydem| && c1 <= |d.xdem| && r < |d.z| && |d.z[r]| == |d.xdem|
    ensures forall p :: p in s <==> exists c :: c0 <= c < c1 && p == At(d, r, c)
  {
    var s := seq(if c0 <= c1 then c1 - c0 else 0, i requires 0 <= i && c0 + i < c1 => At(d, r, c0 + i));
    assert forall c :: c0 <= c < c1 ==> s[c - c0] == At(d, r, c);
    s
  }

  /** Rows r..k.r1 of the crop, flattened. */
  function RowsFrom(d: Dem, k: Crop, r: nat): (s: seq<Posting>)
    requires d.Valid() && k.c1 < |d.xdem| && k.r1 < |d.ydem| && k.r0 <= r
    ensures forall p :: p in s <==> exists i, c :: r <= i && InCrop(k, i, c) && p == At(d, i, c)
    decreases k.r1 - r
  {
    if r >= k.r1 then []
    else
      var head, tail := RowOf(d, r, k.c0, k.c1), RowsFrom(d, k, r + 1);
      assert forall c :: k.c0 <= c < k.c1 ==> InCrop(k, r, c);
      head + tail
  }

  function CropOf(env: Env, rec: Record): (k: Crop)
    requires env.dem.Valid()
    ensures k.c1 < |env.dem.xdem| && k.r1 < |env.dem.ydem|
  {
    CropFor(env.dem, rec.x, rec.y, env.reach)
  }

  function Segment(env: Env, rec: Record): seq<Posting>
    requires env.dem.Valid()
  {
    RowsFrom(env.dem, CropOf(env, rec), CropOf(env, rec).r0)
  }

  function Survivors(env: Env, rec: Record): (s: seq<Posting>)
    requires env.dem.Valid()
    ensures forall p :: p in s <==> p in Segment(env, rec) && InBeam(env, rec, p) && SensibleHeight(p)
  {
    Keep(Keep(Keep(Segment(env, rec), BeamTest(env, rec)), HasHeight), SensibleHeight)
  }

  lemma SqrtBelow(f: real -> real, s: real, b: real)
    requires IsSqrt(f) && 0.0 <= s && f(s) < b
    ensures s < Sq(b)
  {
    var q := f(s);
    assert q >= 0.0 && q * q == s;
    SqStrict(q, b);
  }

  lemma SqStrict(a: real, b: real)
    requires 0.0 <= a < b
    ensures Sq(a) < Sq(b)
  {
    TimesOrder(a, a, b);
    TimesGrows(b, a, b);
    TimesFacts(a, 0.0, b);
  }

  lemma TimesGrows(m: real, a: real, b: real)
    requires 0.0 < m && a < b
    ensures Times(m, a) < Times(m, b)
  {}

  lemma Dist2Parts(x1: real, y1: real, z1: real, x2: real, y2: real, z2: real)
    ensures Dist2(x1, y1, z1, x2, y2, z2) >= Sq(x2 - x1) + Sq(y2 - y1) >= 0.0
  {
    SqNotNegative(x2 - x1);
    SqNotNegative(y2 - y1);
    SqNotNegative(z2 - z1);
  }

  /** The three-dimensional beam test implies the horizontal one. */
  lemma InBeamIsUnderBeam(env: Env, rec: Record, p: Posting)
    requires IsSqrt(env.sqrt) && InBeam(env, rec, p)
    ensures Sq(p.x - rec.x) + Sq(p.y - rec.y) < Sq(env.half)
  {
    Dist2Parts(rec.x, rec.y, rec.nadirHeight.value, p.x, p.y, p.z.value);
    SqrtBelow(env.sqrt, Dist2(rec.x, rec.y, rec.nadirHeight.value, p.x, p.y, p.z.value), env.half);
  }

  /** A posting that passes the filters survives exactly when it is not in the DEM's last row or column. */
  lemma SurvivesIff(env: Env, rec: Record, r: nat, c: nat)
    requires env.Valid() && r < |env.dem.ydem| && c < |env.dem.xdem|
    requires InBeam(env, rec, At(env.dem, r, c)) && SensibleHeight(At(env.dem, r, c))
    ensures At(env.dem, r, c) in Survivors(env, rec) <==> r < |env.dem.ydem| - 1 && c < |env.dem.xdem| - 1
  {
    var p := At(env.dem, r, c);
    InBeamIsUnderBeam(env, rec, p);
    UnderBeamInSegmentIff(env, rec, r, c);
    assert p in Survivors(env, rec) <==> p in Segment(env, rec);
  }

  lemma UnderBeamInSegmentIff(env: Env, rec: Record, r: nat, c: nat)
    requires env.Valid() && r < |env.dem.ydem| && c < |env.dem.xdem|
    requires UnderBeam(env.dem, rec.x, rec.y, env.half, r, c)
    ensures At(env.dem, r, c) in Segment(env, rec) <==> r < |env.dem.ydem| - 1 && c < |env.dem.xdem| - 1
  {
    PostingKeptIff(env.dem, rec.x, rec.y, env.half, env.reach, r, c);
    InSegmentIff(env, rec, r, c);
  }

  lemma InSegmentIff(env: Env, rec: Record, r: nat, c: nat)
    requires env.dem.Valid() && r < |env.dem.ydem| && c < |env.dem.xdem|
    ensures At(env.dem, r, c) in Segment(env, rec) <==> InCrop(CropOf(env, rec), r, c)
  {
    var d, k := env.dem, CropOf(env, rec);
    var p := At(d, r, c);
    if p in Segment(env, rec) {
      var i, j :| k.r0 <= i && InCrop(k, i, j) && p == At(d, i, j);
      SamePlace(d, r, c, i, j);
    }
  }

  lemma SamePlace(d: Dem, r: nat, c: nat, i: nat, j: nat)
    requires d.Valid() && r < |d.ydem| && c < |d.xdem| && i < |d.ydem| && j < |d.xdem|
    requires d.xdem[c] == d.xdem[j] && d.ydem[r] == d.ydem[i]
    ensures r == i && c == j
  {
    if c <= j { SteppedOrder(d.xdem, d.sx, c, j); } else { SteppedOrder(d.xdem, d.sx, j, c); }
    if r <= i { FallingOrder(d.ydem, d.sy, r, i); } else { FallingOrder(d.ydem, d.sy, i, r); }
  }

  // ---- What survives, in coordinates ----

  /** calculate_distances is the straight-line distance. */
  lemma ToSatIs(env: Env, rec: Record, p: Posting)
    requires IsSqrt(env.sqrt) && p.z.Val?
    ensures var d := ToSat(env, rec, p);
            && d >= 0.0
            && d * d == (p.x - rec.x) * (p.x - rec.x) + (p.y - rec.y) * (p.y - rec.y)
                        + (p.z.value - rec.alt) * (p.z.value - rec.alt)
  {
    Dist2Parts(rec.x, rec.y, rec.alt, p.x, p.y, p.z.value);
    SqNotNegative(p.z.value - rec.alt);
  }

  lemma SqrtBelowIff(f: real -> real, s: real, b: real)
    requires IsSqrt(f) && 0.0 <= s && b >= 0.0
    ensures f(s) < b <==> s < Sq(b)
  {
    var q := f(s);
    assert q >= 0.0 && Sq(q) == s;
    if q < b { SqStrict(q, b); } else { SqMonotone(b, q); }
  }

  /** Nearer to the DEM surface at nadir than half the beam width, height difference included. */
  predicate NearNadir(rec: Record, p: Posting, half: real) {
    && rec.nadirHeight.Val? && p.z.Val?
    && (p.x - rec.x) * (p.x - rec.x) + (p.y - rec.y) * (p.y - rec.y)
       + (p.z.value - rec.nadirHeight.value) * (p.z.value - rec.nadirHeight.value) < half * half
  }

  lemma InBeamIff(env: Env, rec: Record, p: Posting)
    requires IsSqrt(env.sqrt) && env.half >= 0.0
    ensures InBeam(env, rec, p) <==> NearNadir(rec, p, env.half)
  {
    if rec.nadirHeight.Val? && p.z.Val? {
      var s := Dist2(rec.x, rec.y, rec.nadirHeight.value, p.x, p.y, p.z.value);
      Dist2Parts(rec.x, rec.y, rec.nadirHeight.value, p.x, p.y, p.z.value);
      SqNotNegative(p.z.value - rec.nadirHeight.value);
      SqrtBelowIff(env.sqrt, s, env.half);
    }
  }

  /** A DEM posting survives exactly when it is in the beam, below 5000 m and not in the last row or column. */
  lemma SurvivorIff(env: Env, rec: Record, r: nat, c: nat, p: Posting)
    requires env.Valid() && r < |env.dem.ydem| && c < |env.dem.xdem|
    requires p == Posting(env.dem.xdem[c], env.dem.ydem[r], env.dem.z[r][c])
    ensures p in Survivors(env, rec) <==>
      && r < |env.dem.ydem| - 1 && c < |env.dem.xdem| - 1
      && NearNadir(rec, p, env.half) && p.z.value < 5000.0
  {
    InBeamIff(env, rec, p);
    if InBeam(env, rec, p) && SensibleHeight(p) {
      assert p == At(env.dem, r, c);
      SurvivesIff(env, rec, r, c);
    }
  }

  /** And every survivor is such a posting. */
  lemma SurvivorIsPosting(env: Env, rec: Record, p: Posting) returns (r: nat, c: nat)
    requires env.Valid() && p in Survivors(env, rec)
    ensures r < |env.dem.ydem| && c < |env.dem.xdem| && p == Posting(env.dem.xdem[c], env.dem.ydem[r], env.dem.z[r][c])
  {
    var k := CropOf(env, rec);
    assert p in Segment(env, rec);
    var i, j :| k.r0 <= i && InCrop(k, i, j) && p == At(env.dem, i, j);
    r, c := i, j;
  }

  lemma {:induction false} KeepDistinct(s: seq<Posting>, f: Posting -> bool)
    requires Distinct(s)
    ensures Distinct(Keep(s, f))
  {
    if |s| > 0 {
      KeepDistinct(s[1..], f);
      assert forall i :: 0 <= i < |s[1..]| ==> s[1..][i] != s[0];
      var rest := Keep(s[1..], f);
      assert s[0] !in s[1..] && s[0] !in rest;
      assert forall i :: 0 <= i < |rest| ==> rest[i] in rest;
    }
  }

  lemma RowIsDistinct(d: Dem, r: nat, c0: nat, c1: nat)
    requires d.Valid() && r < |d.ydem| && c1 <= |d.xdem|
    ensures Distinct(RowOf(d, r, c0, c1))
  {
    var s := RowOf(d, r, c0, c1);
    forall i, j | 0 <= i < j < |s|
      ensures s[i] != s[j]
    {
      assert s[i] == At(d, r, c0 + i) && s[j] == At(d, r, c0 + j);
      SteppedOrder(d.xdem, d.sx, c0 + i, c0 + j);
    }
  }

  lemma DistinctAppend(a: seq<Posting>, b: seq<Posting>)
    requires Distinct(a) && Distinct(b) && forall p :: p in a ==> p !in b
    ensures Distinct(a + b)
  {
    var s := a + b;
    forall i, j | 0 <= i < j < |s|
      ensures s[i] != s[j]
    {
      if i < |a| <= j { assert s[i] in a && s[j] in b; }
    }
  }

  lemma {:induction false} RowsAreDistinct(d: Dem, k: Crop, r: nat)
    requires d.Valid() && k.c1 < |d.xdem| && k.r1 < |d.ydem| && k.r0 <= r
    ensures Distinct(RowsFrom(d, k, r))
    decreases k.r1 - r
  {
    if r < k.r1 {
      var head, tail := RowOf(d, r, k.c0, k.c1), RowsFrom(d, k, r + 1);
      RowIsDistinct(d, r, k.c0, k.c1);
      RowsAreDistinct(d, k, r + 1);
      forall p | p in head
        ensures p !in tail
      {
        if p in tail {
          var i, c :| r + 1 <= i && InCrop(k, i, c) && p == At(d, i, c);
          FallingOrder(d.ydem, d.sy, r, i);
        }
      }
      DistinctAppend(head, tail);
    }
  }

  /** No posting survives twice, so that means and medians are over postings. */
  lemma SurvivorsAreDistinct(env: Env, rec: Record)
    requires env.Valid()
    ensures Distinct(Survivors(env, rec))
  {
    RowsAreDistinct(env.dem, CropOf(env, rec), CropOf(env, rec).r0);
    var s := Segment(env, rec);
    KeepDistinct(s, BeamTest(env, rec));
    KeepDistinct(Keep(s, BeamTest(env, rec)), HasHeight);
    KeepDistinct(Keep(Keep(s, BeamTest(env, rec)), HasHeight), SensibleHeight);
  }

  // ---- The range window ----

  function Within(dist: Posting -> real, pts: seq<Posting>, lo: real, hi: real): (w: seq<Posting>)
    ensures forall p :: p in w <==> p in pts && lo <= dist(p) <= hi
    ensures |w| > 0 <==> exists p :: p in w
  {
    Keep(pts, p => lo <= dist(p) <= hi)
  }

  /** Index of the posting nearest to the satellite. */
  function Closest(dist: Posting -> real, pts: seq<Posting>): (k: nat)
    requires |pts| > 0
    ensures k < |pts|
    ensures forall p :: p in pts ==> dist(pts[k]) <= dist(p)
  {
    var d := seq(|pts|, i requires 0 <= i < |pts| => dist(pts[i]));
    assert forall i :: 0 <= i < |pts| ==> d[i] == dist(pts[i]);
    ArgMin(d)
  }

  /** The window about the retracking point, moved to the nearest posting when it is empty. */
  function RetrackWindow(dist: Posting -> real, pts: seq<Posting>, point: real, delta: real): (w: seq<Posting>)
    requires |pts| > 0
    ensures forall p :: p in w ==> p in pts
  {
    var rangeStart, rangeEnd := point - delta, point + delta;
    var w := Within(dist, pts, rangeStart, rangeEnd);
    if |w| > 0 then w
    else
      var diff := dist(pts[Closest(dist, pts)]) - rangeStart;
      Within(dist, pts, rangeStart + diff, rangeEnd + diff)
  }

  predicate Shifted(dist: Posting -> real, pts: seq<Posting>, point: real, delta: real) {
    |Within(dist, pts, point - delta, point + delta)| == 0
  }

  /** The "no points found" failure cannot occur, for a non-negative offset and only then. */
  lemma WindowNonEmptyIff(dist: Posting -> real, pts: seq<Posting>, point: real, delta: real)
    requires |pts| > 0
    ensures |RetrackWindow(dist, pts, point, delta)| > 0 <==> delta >= 0.0
  {
    var w := RetrackWindow(dist, pts, point, delta);
    var nearest := pts[Closest(dist, pts)];
    if delta >= 0.0 {
      if Shifted(dist, pts, point, delta) {
        assert nearest in w;
      }
    }
  }

  /** Whether or not the window moved, no surviving posting that it could have held is nearer than its nearest. */
  lemma ShiftedWindowHasNearest(dist: Posting -> real, pts: seq<Posting>, point: real, delta: real)
    requires |pts| > 0 && delta >= 0.0 && Shifted(dist, pts, point, delta)
    ensures var w := RetrackWindow(dist, pts, point, delta);
            |w| > 0 && forall p :: p in pts ==> dist(w[Closest(dist, w)]) <= dist(p)
  {
    WindowNonEmptyIff(dist, pts, point, delta);
    var w := RetrackWindow(dist, pts, point, delta);
    assert pts[Closest(dist, pts)] in w;
  }

  /** An unmoved window holds only postings within the offset of the retracking point. */
  lemma UnshiftedWindowIsClose(dist: Posting -> real, pts: seq<Posting>, point: real, delta: real, p: Posting)
    requires |pts| > 0 && !Shifted(dist, pts, point, delta) && p in RetrackWindow(dist, pts, point, delta)
    ensures Abs(dist(p) - point) <= delta
  {}

  /** What the window holds: all postings within the offset of the point, or of the nearest one's far side. */
  lemma RetrackWindowIs(dist: Posting -> real, pts: seq<Posting>, point: real, delta: real, nearest: Posting)
    requires nearest in pts && forall p :: p in pts ==> dist(nearest) <= dist(p)
    ensures var w := RetrackWindow(dist, pts, point, delta);
            if exists p :: p in pts && Abs(dist(p) - point) <= delta
            then forall p :: p in w <==> p in pts && Abs(dist(p) - point) <= delta
            else forall p :: p in w <==> p in pts && dist(p) <= dist(nearest) + 2.0 * delta
  {
    var w := Within(dist, pts, point - delta, point + delta);
    assert forall p :: p in w <==> p in pts && Abs(dist(p) - point) <= delta;
    assert dist(pts[Closest(dist, pts)]) == dist(nearest);
    if |w| == 0 {
      assert forall p :: p !in w;
    } else {
      assert w[0] in w;
    }
  }

  // ---- One record ----

  /** What the loop leaves for a record: slope_ok, POCA x, y, z and the slope correction. */
  datatype Fix = Fix(ok: bool, x: real, y: real, z: Num, slope: Num)

  function Unfixed(rec: Record, ok: bool): Fix {
    Fix(ok, rec.x, rec.y, NaN, NaN)
  }

  /** The postings inside the selected range window; a NaN range selects none. */
  function Windowed(env: Env, rec: Record, pts: seq<Posting>): (r: Result<seq<Posting>>)
    requires |pts| > 0
    ensures r.Ok? ==> forall p :: p in r.value ==> p in pts
  {
    var dist := Ranger(env, rec);
    if env.use.fullLeadingEdge then
      if rec.range.NaN? then Ok([])
      else Ok(Within(dist, pts,
                     rec.range.value - Times(env.rangeBin, env.refBin - rec.edgeStart),
                     rec.range.value + Times(env.rangeBin, rec.edgeStop - env.refBin)))
    else if env.use.windowAroundRetracking then
      var point := Plus(rec.range, rec.retrack);
      if point.NaN? then Ok([]) else Ok(RetrackWindow(dist, pts, point.value, env.deltaRangeOffset))
    else Err("No LEPTA window method selected")
  }

  function Mean(s: seq<real>): real
    requires |s| > 0
  {
    Sum(s) / |s| as real
  }

  function Xs(w: seq<Posting>): (v: seq<real>)
    ensures |v| == |w| && forall i :: 0 <= i < |w| ==> v[i] == w[i].x
  {
    seq(|w|, i requires 0 <= i < |w| => w[i].x)
  }

  function Ys(w: seq<Posting>): (v: seq<real>)
    ensures |v| == |w| && forall i :: 0 <= i < |w| ==> v[i] == w[i].y
  {
    seq(|w|, i requires 0 <= i < |w| => w[i].y)
  }

  function Zs(w: seq<Posting>): seq<real> {
    seq(|w|, i requires 0 <= i < |w| => if w[i].z.Val? then w[i].z.value else 0.0)
  }

  function PocaXY(env: Env, rec: Record, w: seq<Posting>): Result<(real, real)>
    requires |w| > 0
  {
    if env.use.meanXY then Ok((Mean(Xs(w)), Mean(Ys(w))))
    else if env.use.minDistXY then
      var p := w[Closest(Ranger(env, rec), w)];
      Ok((p.x, p.y))
    else Err("no method selected for LEPTA POCA(x,y)")
  }

  function PocaZ(env: Env, rec: Record, w: seq<Posting>, x: real, y: real): Result<Num>
    requires |w| > 0
  {
    if env.use.meanZ then Ok(Val(Mean(Zs(w))))
    else if env.use.medianZ then Ok(Val(env.median(Zs(w))))
    else if env.use.minDistZ then Ok(w[Closest(Ranger(env, rec), w)].z)
    else if env.use.medianAroundPoint then Ok(env.around(x, y))
    else Err("no method selected for LEPTA POCA(z)")
  }

  /** Distance from the satellite to the POCA, plus its height, minus the altitude. */
  function SlopeCorrection(env: Env, rec: Record, x: real, y: real, z: Num): Num {
    if z.NaN? then NaN else Val(ToSat(env, rec, Posting(x, y, z)) + z.value - rec.alt)
  }

  function FixInWindow(env: Env, rec: Record, w: seq<Posting>): Result<Fix>
    requires |w| > 0
  {
    match PocaXY(env, rec, w)
    case Err(e) => Err(e)
    case Ok(xy) =>
      match PocaZ(env, rec, w, xy.0, xy.1)
      case Err(e) => Err(e)
      case Ok(z) => Ok(Fix(true, xy.0, xy.1, z, SlopeCorrection(env, rec, xy.0, xy.1, z)))
  }

  /** The record's fix, from its surviving postings. */
  function FixFrom(env: Env, rec: Record, pts: seq<Posting>): Result<Fix> {
    if |pts| == 0 then Ok(Unfixed(rec, false))
    else
      match Windowed(env, rec, pts)
      case Err(e) => Err(e)
      case Ok(w) => if |w| == 0 then Ok(Unfixed(rec, false)) else FixInWindow(env, rec, w)
  }

  function FixOf(env: Env, rec: Record): Result<Fix>
    requires env.dem.Valid()
  {
    if !rec.used then Ok(Unfixed(rec, true)) else FixFrom(env, rec, Survivors(env, rec))
  }

  /** The body of the record loop, with its early exits. */
  method LocateRecord(env: Env, rec: Record) returns (r: Result<Fix>)
    requires env.dem.Valid()
    ensures r == FixOf(env, rec)
  {
    if !rec.used { return Ok(Unfixed(rec, true)); }
    var pts := Keep(Segment(env, rec), BeamTest(env, rec));
    if |pts| == 0 { return Ok(Unfixed(rec, false)); }
    pts := Keep(pts, HasHeight);
    if |pts| < 1 { return Ok(Unfixed(rec, false)); }
    pts := Keep(pts, SensibleHeight);
    if |pts| < 1 { return Ok(Unfixed(rec, false)); }
    var window := Windowed(env, rec, pts);
    if window.Err? { return Err(window.error); }
    if |window.value| == 0 { return Ok(Unfixed(rec, false)); }
    r := FixInWindow(env, rec, window.value);
  }

  // ---- The track ----

  /** The final height: altitude minus retracked range plus slope correction, on grounded ice only. */
  function HeightOf(env: Env, rec: Record, fix: Fix): Num {
    if rec.range.Val? && fix.ok && rec.surface == 1 && env.project(fix.x, fix.y).Some? then
      Plus(Minus(Val(rec.alt), Plus(rec.range, rec.retrack)), fix.slope)
    else NaN
  }

  function PlaceOf(env: Env, rec: Record, fix: Fix): (real, real) {
    if fix.ok && env.project(fix.x, fix.y).Some? then env.project(fix.x, fix.y).value else (rec.lat, rec.lon)
  }

  datatype Track = Track(height: array<Num>, lat: array<real>, lon: array<real>, slopeOk: array<bool>)

  /** The first loop: fix every record, or raise. */
  method FixAll(env: Env, recs: seq<Record>) returns (r: Result<seq<Fix>>)
    requires env.dem.Valid()
    ensures r.Err? <==> exists i :: 0 <= i < |recs| && FixOf(env, recs[i]).Err?
    ensures r.Ok? ==> |r.value| == |recs| && forall i :: 0 <= i < |recs| ==> FixOf(env, recs[i]) == Ok(r.value[i])
  {
    var fixes := [];
    for i := 0 to |recs|
      invariant |fixes| == i
      invariant forall k :: 0 <= k < i ==> FixOf(env, recs[k]) == Ok(fixes[k])
    {
      var fix := LocateRecord(env, recs[i]);
      if fix.Err? { return Err(fix.error); }
      fixes := fixes + [fix.value];
    }
    r := Ok(fixes);
  }

  /** The second loop: heights and positions, from the fixes. */
  method FillTrack(env: Env, recs: seq<Record>, fixes: seq<Fix>) returns (t: Track)
    requires |fixes| == |recs|
    ensures t.height.Length == t.lat.Length == t.lon.Length == t.slopeOk.Length == |recs|
    ensures forall i :: 0 <= i < |recs| ==>
      && t.slopeOk[i] == fixes[i].ok && t.height[i] == HeightOf(env, recs[i], fixes[i])
      && t.lat[i] == PlaceOf(env, recs[i], fixes[i]).0 && t.lon[i] == PlaceOf(env, recs[i], fixes[i]).1
  {
    var n := |recs|;
    var height, slopeOk := new Num[n](_ => NaN), new bool[n](_ => true);
    var lat, lon := new real[n](_ => 0.0), new real[n](_ => 0.0);
    for i := 0 to n
      invariant forall k :: 0 <= k < i ==>
        && slopeOk[k] == fixes[k].ok && height[k] == HeightOf(env, recs[k], fixes[k])
        && lat[k] == PlaceOf(env, recs[k], fixes[k]).0 && lon[k] == PlaceOf(env, recs[k], fixes[k]).1
    {
      var rec, fix := recs[i], fixes[i];
      slopeOk[i] := fix.ok;
      if rec.range.Val? {
        if fix.ok && rec.surface == 1 {
          height[i] := Plus(Minus(Val(rec.alt), Plus(rec.range, rec.retrack)), fix.slope);
        } else {
          height[i] := NaN;
        }
      } else {
        height[i] := NaN;
      }
      var place := env.project(fix.x, fix.y);
      if place.None? || !fix.ok {
        lat[i], lon[i] := rec.lat, rec.lon;
        height[i] := NaN;
      } else {
        lat[i], lon[i] := place.value.0, place.value.1;
      }
    }
    t := Track(height, lat, lon, slopeOk);
  }

  /** geolocate_lepta */
  method Geolocate(env: Env, recs: seq<Record>) returns (r: Result<Track>)
    requires env.dem.Valid()
    ensures r.Err? <==> exists i :: 0 <= i < |recs| && FixOf(env, recs[i]).Err?
    ensures r.Ok? ==>
      && r.value.height.Length == r.value.lat.Length == r.value.lon.Length == r.value.slopeOk.Length == |recs|
      && exists fixes: seq<Fix> ::
           && |fixes| == |recs|
           && (forall i :: 0 <= i < |recs| ==> FixOf(env, recs[i]) == Ok(fixes[i]))
           && (forall i :: 0 <= i < |recs| ==>
                 && r.value.slopeOk[i] == fixes[i].ok && r.value.height[i] == HeightOf(env, recs[i], fixes[i])
                 && r.value.lat[i] == PlaceOf(env, recs[i], fixes[i]).0
                 && r.value.lon[i] == PlaceOf(env, recs[i], fixes[i]).1)
  {
    var fixes := FixAll(env, recs);
    if fixes.Err? { return Err(fixes.error); }
    var track := FillTrack(env, recs, fixes.value);
    r := Ok(track);
  }

  // ---- Heights ----

  /** The slope identity: (d - dz)(d + dz) is the squared horizontal offset. */
  lemma SlopeBounds(h2: real, dz: real, d: real, half: real)
    requires d >= 0.0 && dz > 0.0 && d * d == h2 + dz * dz && 0.0 <= h2 < half * half
    ensures 0.0 <= d - dz && (d - dz) * (2.0 * dz) <= h2
  {
    if d < dz { SqStrict(d, dz); }
    assert (d - dz) * (d - dz) >= 0.0 by { SqNotNegative(d - dz); }
    assert (d - dz) * (d - dz) + (d - dz) * (2.0 * dz) == (d - dz) * (d + dz) == d * d - dz * dz;
  }

  lemma DivideBound(a: real, b: real, c: real)
    requires b > 0.0 && a * b <= c
    ensures a <= c / b
  {
    assert c / b * b == c;
  }

  predicate MinDistance(use: Switches) {
    !use.meanXY && use.minDistXY && !use.meanZ && !use.medianZ && use.minDistZ
  }

  /** With minimum-distance selection the POCA is the posting of the window nearest to the satellite. */
  lemma MinDistanceFix(env: Env, rec: Record, pts: seq<Posting>, fix: Fix) returns (w: seq<Posting>, p: Posting)
    requires |pts| > 0 && FixFrom(env, rec, pts) == Ok(fix) && fix.ok && MinDistance(env.use)
    ensures Windowed(env, rec, pts) == Ok(w) && |w| > 0 && p == w[Closest(Ranger(env, rec), w)] && p in w && p in pts
    ensures fix.x == p.x && fix.y == p.y && fix.z == p.z
    ensures p.z.Val? ==> fix.slope == Val(ToSat(env, rec, p) + p.z.value - rec.alt)
  {
    w := Windowed(env, rec, pts).value;
    p := w[Closest(Ranger(env, rec), w)];
    assert p == Posting(p.x, p.y, p.z);
  }

  /** Horizontally nearer to nadir than half the beam width. */
  predicate BelowBeam(env: Env, rec: Record, p: Posting) {
    Sq(p.x - rec.x) + Sq(p.y - rec.y) < Sq(env.half)
  }

  lemma SurvivorsAreBelowBeam(env: Env, rec: Record)
    requires env.Valid()
    ensures forall p :: p in Survivors(env, rec) ==> BelowBeam(env, rec, p)
  {
    forall p | p in Survivors(env, rec)
      ensures BelowBeam(env, rec, p)
    {
      InBeamIsUnderBeam(env, rec, p);
    }
  }

  /**
   With minimum-distance selection and the satellite above the posting, the slope correction lies
   between 0 and W * W / (8 * (altitude - z)), for a beam of width W = 2 * half.
   */
  lemma SlopeCorrectionBounds(env: Env, rec: Record, pts: seq<Posting>, fix: Fix)
    requires |pts| > 0 && FixFrom(env, rec, pts) == Ok(fix) && fix.ok && MinDistance(env.use) && IsSqrt(env.sqrt)
    requires forall p :: p in pts ==> BelowBeam(env, rec, p)
    requires fix.z.Val? && fix.z.value < rec.alt
    ensures fix.slope.Val?
    ensures 0.0 <= fix.slope.value <= Sq(2.0 * env.half) / (8.0 * (rec.alt - fix.z.value))
  {
    var _, p := MinDistanceFix(env, rec, pts, fix);
    PostingSlope(env, rec, p);
  }

  /** The same for a record of the track, whose survivors all lie below the beam. */
  lemma RecordSlopeBounds(env: Env, rec: Record, fix: Fix)
    requires env.Valid() && rec.used && FixOf(env, rec) == Ok(fix) && fix.ok && MinDistance(env.use)
    requires fix.z.Val? && fix.z.value < rec.alt
    ensures fix.slope.Val?
    ensures 0.0 <= fix.slope.value <= Sq(2.0 * env.half) / (8.0 * (rec.alt - fix.z.value))
  {
    SurvivorsAreBelowBeam(env, rec);
    SlopeCorrectionBounds(env, rec, Survivors(env, rec), fix);
  }

  lemma PostingSlope(env: Env, rec: Record, p: Posting)
    requires IsSqrt(env.sqrt) && p.z.Val? && p.z.value < rec.alt
    requires BelowBeam(env, rec, p)
    ensures 0.0 <= ToSat(env, rec, p) + p.z.value - rec.alt <= Sq(2.0 * env.half) / (8.0 * (rec.alt - p.z.value))
  {
    var h2 := Sq(p.x - rec.x) + Sq(p.y - rec.y);
    var dz := rec.alt - p.z.value;
    var d := ToSat(env, rec, p);
    Dist2Parts(rec.x, rec.y, rec.alt, p.x, p.y, p.z.value);
    assert Sq(p.z.value - rec.alt) == dz * dz;
    assert d * d == h2 + dz * dz;
    SlopeBounds(h2, dz, d, env.half);
    assert (d - dz) * (8.0 * dz) == 4.0 * ((d - dz) * (2.0 * dz));
    assert Sq(2.0 * env.half) == 4.0 * Sq(env.half);
    DivideBound(d - dz, 8.0 * dz, Sq(2.0 * env.half));
  }

  predicate Retracking(env: Env, rec: Record) {
    !env.use.fullLeadingEdge && env.use.windowAroundRetracking && rec.range.Val? && rec.retrack.Val?
  }

  /**
   In retracking-point mode the height is the posting's height plus its distance minus the retracked
   range. If the window was not moved, the height is within the range offset of the posting's height;
   if it was moved, the posting is the nearest of all survivors.
   */
  lemma HeightOfFix(env: Env, rec: Record, pts: seq<Posting>, fix: Fix)
    requires |pts| > 0 && FixFrom(env, rec, pts) == Ok(fix) && fix.ok && MinDistance(env.use) && Retracking(env, rec)
    requires fix.z.Val? && HeightOf(env, rec, fix).Val?
    ensures var point := rec.range.value + rec.retrack.value;
            var dist := Ranger(env, rec);
            var poca := Posting(fix.x, fix.y, fix.z);
            && poca in pts
            && HeightOf(env, rec, fix).value == fix.z.value + dist(poca) - point
            && (!Shifted(dist, pts, point, env.deltaRangeOffset) ==>
                  Abs(HeightOf(env, rec, fix).value - fix.z.value) <= env.deltaRangeOffset)
            && (Shifted(dist, pts, point, env.deltaRangeOffset) ==> forall q :: q in pts ==> dist(poca) <= dist(q))
  {
    var w, p := MinDistanceFix(env, rec, pts, fix);
    var point := rec.range.value + rec.retrack.value;
    var dist := Ranger(env, rec);
    assert w == RetrackWindow(dist, pts, point, env.deltaRangeOffset);
    assert p == Posting(fix.x, fix.y, fix.z);
    if Shifted(dist, pts, point, env.deltaRangeOffset) {
      WindowNonEmptyIff(dist, pts, point, env.deltaRangeOffset);
      ShiftedWindowHasNearest(dist, pts, point, env.deltaRangeOffset);
    } else {
      UnshiftedWindowIsClose(dist, pts, point, env.deltaRangeOffset, p);
    }
  }

  /** A record with a surviving posting fails exactly when the range offset is negative. */
  lemma RetrackingFixesIff(env: Env, rec: Record, pts: seq<Posting>)
    requires |pts| > 0 && Retracking(env, rec)
    requires env.use.meanXY || env.use.minDistXY
    requires env.use.meanZ || env.use.medianZ || env.use.minDistZ || env.use.medianAroundPoint
    ensures FixFrom(env, rec, pts).Ok? && (FixFrom(env, rec, pts).value.ok <==> env.deltaRangeOffset >= 0.0)
  {
    WindowNonEmptyIff(Ranger(env, rec), pts, rec.range.value + rec.retrack.value, env.deltaRangeOffset);
  }

  // ---- The leading-edge window ----

  predicate LeadingEdge(env: Env, rec: Record) {
    env.use.fullLeadingEdge && rec.range.Val? && env.rangeBin > 0.0
  }

  /** The range bin a posting's echo falls in. */
  function BinOf(env: Env, rec: Record, p: Posting): real
    requires LeadingEdge(env, rec)
  {
    env.refBin + (ToSat(env, rec, p) - rec.range.value) / env.rangeBin
  }

  /** Distances within the two ranges of the leading edge are those whose bins are. */
  lemma EdgeBins(d: real, range: real, bin: real, ref: real, start: real, stop: real)
    requires bin > 0.0
    ensures range - Times(bin, ref - start) <= d <= range + Times(bin, stop - ref)
      <==> start <= ref + (d - range) / bin <= stop
  {
    var q := (d - range) / bin;
    assert Times(bin, q) == d - range;
    CompareScaled(start - ref, q, bin);
    CompareScaled(q, stop - ref, bin);
    TimesFacts(ref - start, start - ref, bin);
  }

  lemma CompareScaled(a: real, b: real, m: real)
    requires m > 0.0
    ensures a <= b <==> Times(m, a) <= Times(m, b)
  {
    if a <= b { TimesOrder(m, a, b); } else { TimesGrows(m, b, a); }
  }

  /** The window holds just the postings whose bin lies on the leading edge. */
  lemma LeadingEdgeWindow(env: Env, rec: Record, pts: seq<Posting>, p: Posting)
    requires |pts| > 0 && LeadingEdge(env, rec)
    ensures Windowed(env, rec, pts).Ok?
    ensures p in Windowed(env, rec, pts).value <==> p in pts && rec.edgeStart <= BinOf(env, rec, p) <= rec.edgeStop
  {
    InEdgeRange(env, rec, pts, p);
    EdgeBins(ToSat(env, rec, p), rec.range.value, env.rangeBin, env.refBin, rec.edgeStart, rec.edgeStop);
  }

  lemma InEdgeRange(env: Env, rec: Record, pts: seq<Posting>, p: Posting)
    requires |pts| > 0 && LeadingEdge(env, rec)
    ensures Windowed(env, rec, pts).Ok?
    ensures p in Windowed(env, rec, pts).value <==>
      && p in pts
      && rec.range.value - Times(env.rangeBin, env.refBin - rec.edgeStart) <= ToSat(env, rec, p)
         <= rec.range.value + Times(env.rangeBin, rec.edgeStop - env.refBin)
  {}

  predicate SelectsPoint(use: Switches) {
    (use.meanXY || use.minDistXY) && (use.meanZ || use.medianZ || use.minDistZ || use.medianAroundPoint)
  }

  lemma FixedIffInWindow(env: Env, rec: Record, pts: seq<Posting>)
    requires |pts| > 0 && Windowed(env, rec, pts).Ok? && SelectsPoint(env.use)
    ensures FixFrom(env, rec, pts).Ok?
    ensures FixFrom(env, rec, pts).value.ok <==> |Windowed(env, rec, pts).value| > 0
  {}

  /** The posting's bin lies on the leading edge. */
  predicate OnEdge(env: Env, rec: Record, p: Posting)
    requires LeadingEdge(env, rec)
  {
    rec.edgeStart <= BinOf(env, rec, p) <= rec.edgeStop
  }

  lemma EdgeWindowNonEmptyIff(env: Env, rec: Record, pts: seq<Posting>)
    requires |pts| > 0 && LeadingEdge(env, rec)
    ensures Windowed(env, rec, pts).Ok?
    ensures |Windowed(env, rec, pts).value| > 0 <==> exists p :: p in pts && OnEdge(env, rec, p)
  {
    LeadingEdgeWindow(env, rec, pts, pts[0]);
    var w := Windowed(env, rec, pts).value;
    if |w| > 0 {
      LeadingEdgeWindow(env, rec, pts, w[0]);
      assert w[0] in w;
    }
    if p :| p in pts && OnEdge(env, rec, p) { LeadingEdgeWindow(env, rec, pts, p); }
  }

  /** So a record is fixed exactly when some survivor's bin lies on the leading edge. */
  lemma LeadingEdgeFixesIff(env: Env, rec: Record)
    requires env.Valid() && rec.used && LeadingEdge(env, rec) && SelectsPoint(env.use)
    ensures FixOf(env, rec).Ok?
    ensures FixOf(env, rec).value.ok <==> exists p :: p in Survivors(env, rec) && OnEdge(env, rec, p)
  {
    var pts := Survivors(env, rec);
    if |pts| > 0 {
      EdgeWindowNonEmptyIff(env, rec, pts);
      FixedIffInWindow(env, rec, pts);
    }
  }

  /** With minimum-distance selection the height differs from the posting's by its place on the leading edge. */
  lemma LeadingEdgeHeight(env: Env, rec: Record, pts: seq<Posting>, fix: Fix)
    requires |pts| > 0 && FixFrom(env, rec, pts) == Ok(fix) && fix.ok && MinDistance(env.use) && LeadingEdge(env, rec)
    requires fix.z.Val? && HeightOf(env, rec, fix).Val?
    ensures rec.retrack.Val?
    ensures var poca := Posting(fix.x, fix.y, fix.z);
            && poca in pts
            && HeightOf(env, rec, fix).value ==
                 fix.z.value + ToSat(env, rec, poca) - rec.range.value - rec.retrack.value
    ensures Times(env.rangeBin, rec.edgeStart - env.refBin) - rec.retrack.value
      <= HeightOf(env, rec, fix).value - fix.z.value
      <= Times(env.rangeBin, rec.edgeStop - env.refBin) - rec.retrack.value
  {
    var w, p := MinDistanceFix(env, rec, pts, fix);
    assert p == Posting(fix.x, fix.y, fix.z);
    InEdgeRange(env, rec, pts, p);
    TimesFacts(env.refBin - rec.edgeStart, rec.edgeStart - env.refBin, env.rangeBin);
  }

  // ---- Every branch of the selection ----

  /** A record that is left out keeps its flag and nadir position and gets no slope correction. */
  lemma UnusedRecord(env: Env, rec: Record)
    requires env.dem.Valid() && !rec.used
    ensures FixOf(env, rec) == Ok(Fix(true, rec.x, rec.y, NaN, NaN))
  {}

  /** So does one without survivors, or without any in its window, but its flag is cleared. */
  lemma FailedRecord(env: Env, rec: Record)
    requires env.dem.Valid() && rec.used
    requires var pts := Survivors(env, rec); |pts| == 0 || Windowed(env, rec, pts) == Ok([])
    ensures FixOf(env, rec) == Ok(Fix(false, rec.x, rec.y, NaN, NaN))
  {}

  lemma WindowRaisesIff(env: Env, rec: Record, pts: seq<Posting>)
    requires |pts| > 0
    ensures Windowed(env, rec, pts).Err? <==> !env.use.fullLeadingEdge && !env.use.windowAroundRetracking
  {}

  lemma SelectionRaisesIff(env: Env, rec: Record, w: seq<Posting>)
    requires |w| > 0
    ensures FixInWindow(env, rec, w).Err? <==> !SelectsPoint(env.use)
  {}

  /**
   A record raises exactly when a posting survives and no window method is chosen, or its window has
   postings and no method for the point is.
   */
  lemma FixRaisesIff(env: Env, rec: Record, pts: seq<Posting>)
    requires env.dem.Valid() && pts == Survivors(env, rec)
    ensures FixOf(env, rec).Err? <==>
      && rec.used && |pts| > 0
      && ((!env.use.fullLeadingEdge && !env.use.windowAroundRetracking)
          || (Windowed(env, rec, pts) != Ok([]) && !SelectsPoint(env.use)))
  {
    if |pts| > 0 {
      WindowRaisesIff(env, rec, pts);
      var w := Windowed(env, rec, pts);
      if w.Ok? && |w.value| > 0 { SelectionRaisesIff(env, rec, w.value); }
    }
  }

  lemma {:induction false} Centred(s: seq<real>, m: real)
    ensures Sum(seq(|s|, i requires 0 <= i < |s| => s[i] - m)) == Sum(s) - Times(m, |s| as real)
  {
    var t := seq(|s|, i requires 0 <= i < |s| => s[i] - m);
    TimesFacts(0.0, 0.0, m);
    if |s| > 0 {
      var front := s[..|s| - 1];
      Centred(front, m);
      assert t[..|s| - 1] == seq(|front|, i requires 0 <= i < |front| => front[i] - m);
      TimesFacts(|front| as real, 1.0, m);
    }
  }

  /** The value from which the others' deviations add up to nothing. */
  ghost predicate IsMean(m: real, s: seq<real>) {
    Sum(seq(|s|, i requires 0 <= i < |s| => s[i] - m)) == 0.0
  }

  lemma MeanIsMean(s: seq<real>)
    requires |s| > 0
    ensures IsMean(Mean(s), s)
  {
    Centred(s, Mean(s));
    assert Times(Mean(s), |s| as real) == Sum(s);
  }

  /** Which point and height each switch gives for a window of postings, all of which have heights. */
  lemma SelectedPoint(env: Env, rec: Record, w: seq<Posting>, zs: seq<real>, fix: Fix)
    requires |w| > 0 && |zs| == |w| && (forall i :: 0 <= i < |w| ==> w[i].z == Val(zs[i]))
    requires FixInWindow(env, rec, w) == Ok(fix)
    ensures fix.ok
    ensures env.use.meanXY ==> IsMean(fix.x, Xs(w)) && IsMean(fix.y, Ys(w))
    ensures !env.use.meanXY ==>
      exists k :: 0 <= k < |w| && IsNearest(env, rec, w, k) && fix.x == w[k].x && fix.y == w[k].y
    ensures env.use.meanZ ==> fix.z.Val? && IsMean(fix.z.value, zs)
    ensures !env.use.meanZ && env.use.medianZ ==> fix.z == Val(env.median(zs))
    ensures !env.use.meanZ && !env.use.medianZ && env.use.minDistZ ==>
      exists k :: 0 <= k < |w| && IsNearest(env, rec, w, k) && fix.z == w[k].z
    ensures !env.use.meanZ && !env.use.medianZ && !env.use.minDistZ ==> fix.z == env.around(fix.x, fix.y)
    ensures fix.slope.Val? <==> fix.z.Val?
    ensures fix.z.Val? ==> fix.slope.value == ToSat(env, rec, Posting(fix.x, fix.y, fix.z)) + fix.z.value - rec.alt
  {
    var k := Closest(Ranger(env, rec), w);
    assert forall i :: 0 <= i < |w| ==> w[i] in w;
    assert IsNearest(env, rec, w, k);
    assert Zs(w) == zs;
    MeanIsMean(Xs(w));
    MeanIsMean(Ys(w));
    MeanIsMean(zs);
  }

  /** No posting of the window is nearer to the satellite. */
  ghost predicate IsNearest(env: Env, rec: Record, w: seq<Posting>, k: nat)
    requires k < |w|
  {
    forall i :: 0 <= i < |w| ==> ToSat(env, rec, w[k]) <= ToSat(env, rec, w[i])
  }

  /** A record has a height exactly on grounded ice, with a fix that projects and all three numbers known. */
  lemma HeightIff(env: Env, rec: Record, fix: Fix, h: real)
    ensures HeightOf(env, rec, fix) == Val(h) <==>
      && fix.ok && rec.surface == 1 && env.project(fix.x, fix.y).Some?
      && rec.range.Val? && rec.retrack.Val? && fix.slope.Val?
      && h == rec.alt - (rec.range.value + rec.retrack.value) + fix.slope.value
  {}

  /** Its position is the fix's, or nadir's without a fix or a projection of it. */
  lemma PlaceIs(env: Env, rec: Record, fix: Fix, lat: real, lon: real)
    ensures fix.ok && env.project(fix.x, fix.y) == Some((lat, lon)) ==> PlaceOf(env, rec, fix) == (lat, lon)
    ensures !fix.ok || env.project(fix.x, fix.y).None? ==> PlaceOf(env, rec, fix) == (rec.lat, rec.lon)
  {}
}
