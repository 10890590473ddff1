/**
 Three algorithms that hand data to each other through the shared dictionary: the surface type
 renumbering, the CATS2008a tide decision, and the sum of geophysical corrections. Each process()
 is total: a key, a name or an array that is not there makes it raise, as in Python.
 */
module Corrections {
  import opened Numbers

  datatype Hemisphere = North | South
  datatype Mode = LRM | SIN | SAR

  /** How process() ends: (True, ..), (False, "SKIP_OK.."), (False, error), or an exception. */
  datatype Status = Good | Skip | Failed(error: string) | Raised(error: string)

  /** FES2014b corrections at 20 Hz. */
  datatype Fes = Fes(loadTide: seq<Num>, oceanTide: seq<Num>, oceanTideEq: seq<Num>) {
    /** One value per record. */
    predicate Covers(n: nat) {
      |loadTide| == |oceanTide| == |oceanTideEq| == n
    }
  }

  class SharedDict {
    var hemisphere: Option<Hemisphere>
    var mode: Option<Mode>
    var numRecords: nat
    var fes: Option<Fes>
    var surfaceType: Option<seq<nat>>
    var ocean: Option<seq<nat>>
    var grounded: Option<seq<nat>>
    var floating: Option<seq<nat>>
    var icefree: Option<seq<nat>>
    var nonGreenland: Option<seq<nat>>
    var catsRequired: Option<bool>
    var catsTide: Option<seq<Num>>
    var sumCor: Option<seq<Num>>
    var invalid: Option<seq<nat>>

    constructor (hemisphere: Option<Hemisphere>, mode: Option<Mode>, numRecords: nat, fes: Option<Fes>)
      ensures this.hemisphere == hemisphere && this.mode == mode && this.numRecords == numRecords && this.fes == fes
      ensures surfaceType.None? && ocean.None? && floating.None? && catsRequired.None? && catsTide.None? && sumCor.None?
    {
      this.hemisphere, this.mode, this.numRecords, this.fes := hemisphere, mode, numRecords, fes;
      surfaceType, ocean, grounded, floating, icefree, nonGreenland := None, None, None, None, None, None;
      catsRequired, catsTide, sumCor, invalid := None, None, None, None;
    }
  }

  // ---- Index arrays ----

  /** An index array in order, without repeats. */
  predicate InOrder(s: seq<nat>) {
    forall i, j :: 0 <= i < j < |s| ==> s[i] < s[j]
  }

  /** np.where(a == v)[0] */
  function Where(a: seq<nat>, v: nat): (w: seq<nat>)
    ensures forall i: nat :: i in w <==> i < |a| && a[i] == v
    ensures forall k :: 0 <= k < |w| ==> w[k] < |a|
    ensures InOrder(w)
  {
    if |a| == 0 then []
    else
      var w := Where(a[..|a| - 1], v);
      if a[|a| - 1] == v then w + [|a| - 1] else w
  }

  /** a[idx] = v */
  method AssignAt(a: array<nat>, idx: seq<nat>, v: nat)
    requires forall k :: 0 <= k < |idx| ==> idx[k] < a.Length
    modifies a
    ensures forall i: nat :: i < a.Length ==> a[i] == if i in idx then v else old(a[i])
  {
    for k := 0 to |idx|
      invariant forall i: nat :: i < a.Length ==> a[i] == if i in idx[..k] then v else old(a[i])
    {
      a[idx[k]] := v;
      assert idx[..k + 1] == idx[..k] + [idx[k]];
    }
    assert idx[..|idx|] == idx;
  }

  /** a[idx] += terms[idx], for an index array without repeats */
  method AddAt(a: array<Num>, idx: seq<nat>, terms: seq<Num>)
    requires InOrder(idx) && |terms| == a.Length && forall k :: 0 <= k < |idx| ==> idx[k] < a.Length
    modifies a
    ensures forall i: nat :: i < a.Length ==> a[i] == if i in idx then Plus(old(a[i]), terms[i]) else old(a[i])
  {
    for k := 0 to |idx|
      invariant forall i: nat :: i < a.Length ==> a[i] == if i in idx[..k] then Plus(old(a[i]), terms[i]) else old(a[i])
    {
      assert idx[k] !in idx[..k];
      a[idx[k]] := Plus(a[idx[k]], terms[idx[k]]);
      assert idx[..k + 1] == idx[..k] + [idx[k]];
    }
    assert idx[..|idx|] == idx;
  }

  // ---- Surface type ----

  /** Source value (ocean, ice-free land, grounded, floating, Vostok or non-Greenland) to Cryo-TEMPO value. */
  function Renumbered(h: Hemisphere, v: nat): nat {
    if v == 1 then 3 else if v == 2 then 1 else if v == 3 then 2
    else if v == 4 && h == South then 1 else v
  }

  function RenumberedAll(h: Hemisphere, src: seq<nat>): (s: seq<nat>)
    ensures |s| == |src| && forall i :: 0 <= i < |s| ==> s[i] == Renumbered(h, src[i])
  {
    seq(|src|, i requires 0 <= i < |src| => Renumbered(h, src[i]))
  }

  predicate Only(src: seq<nat>, vs: set<nat>) {
    forall i :: 0 <= i < |src| ==> src[i] in vs
  }

  /** What the surface type algorithm leaves in the dictionary for a track of types t. */
  ghost predicate LocationsOf(d: SharedDict, t: seq<nat>)
    reads d
  {
    && d.surfaceType == Some(t)
    && d.ocean == Some(Where(t, 0)) && d.grounded == Some(Where(t, 1)) && d.floating == Some(Where(t, 2))
    && d.icefree == Some(Where(t, 3)) && d.nonGreenland == Some(Where(t, 4))
  }

  /** The northern mapping: three masked writes from index arrays taken before any of them. */
  method RenumberLandAndIce(a: array<nat>)
    modifies a
    ensures a[..] == RenumberedAll(North, old(a[..]))
  {
    var icefree, grounded, floating := Where(a[..], 1), Where(a[..], 2), Where(a[..], 3);
    if |icefree| > 0 { AssignAt(a, icefree, 3); }
    if |grounded| > 0 { AssignAt(a, grounded, 1); }
    if |floating| > 0 { AssignAt(a, floating, 2); }
    forall i: nat | i < a.Length
      ensures a[i] == Renumbered(North, old(a[i]))
    {
      assert old(a[..])[i] == old(a[i]);
      assert i in icefree <==> old(a[i]) == 1;
      assert i in grounded <==> old(a[i]) == 2;
      assert i in floating <==> old(a[i]) == 3;
    }
  }

  /** The in-place renumbering of the array read from the mask. */
  method Renumber(h: Hemisphere, a: array<nat>)
    modifies a
    ensures a[..] == RenumberedAll(h, old(a[..]))
  {
    RenumberLandAndIce(a);
    if h == South {
      ghost var north := a[..];
      var vostok := Where(a[..], 4);
      if |vostok| > 0 { AssignAt(a, vostok, 1); }
      forall i: nat | i < a.Length
        ensures a[i] == Renumbered(South, old(a[..])[i])
      {
        assert i in vostok <==> north[i] == 4;
      }
    }
  }

  lemma WhereEmptyIff(a: seq<nat>, v: nat)
    ensures |Where(a, v)| == 0 <==> forall i :: 0 <= i < |a| ==> a[i] != v
  {
    if |Where(a, v)| > 0 {
      assert Where(a, v)[0] in Where(a, v);
    } else {
      assert forall i: nat :: i < |a| && a[i] == v ==> i in Where(a, v);
    }
  }

  /** No ice-free land, grounded ice or floating ice among the source values. */
  predicate NoIceOrLand(src: seq<nat>) {
    forall i :: 0 <= i < |src| ==> src[i] !in {1, 2, 3}
  }

  method CountIceAndLand(src: seq<nat>) returns (n: nat)
    ensures n == 0 <==> NoIceOrLand(src)
  {
    WhereEmptyIff(src, 1);
    WhereEmptyIff(src, 2);
    WhereEmptyIff(src, 3);
    n := |Where(src, 2)| + |Where(src, 3)| + |Where(src, 1)|;
  }

  method StoreLocations(d: SharedDict, t: seq<nat>)
    modifies d`surfaceType, d`ocean, d`grounded, d`floating, d`icefree, d`nonGreenland
    ensures LocationsOf(d, t)
  {
    d.surfaceType := Some(t);
    d.ocean, d.grounded, d.floating := Some(Where(t, 0)), Some(Where(t, 1)), Some(Where(t, 2));
    d.icefree, d.nonGreenland := Some(Where(t, 3)), Some(Where(t, 4));
  }

  /** The location arrays of those types, by what the mask has for each record. */
  lemma LocationsBySource(h: Hemisphere, src: seq<nat>, i: nat)
    ensures var t := RenumberedAll(h, src);
            && (i in Where(t, 0) <==> i < |src| && src[i] == 0)
            && (i in Where(t, 1) <==> i < |src| && (src[i] == 2 || (src[i] == 4 && h == South)))
            && (i in Where(t, 2) <==> i < |src| && src[i] == 3)
            && (i in Where(t, 3) <==> i < |src| && src[i] == 1)
            && (i in Where(t, 4) <==> i < |src| && src[i] == 4 && h == North)
  {
    var t := RenumberedAll(h, src);
    if i < |src| { assert t[i] == Renumbered(h, src[i]); }
  }

  /** The body of alg_surface_type.process, by the types it finds. */
  method TypeTrack(d: SharedDict, maskValues: seq<nat>) returns (s: Status)
    modifies d`surfaceType, d`ocean, d`grounded, d`floating, d`icefree, d`nonGreenland
    ensures s.Failed? <==> d.hemisphere.None?
    ensures s.Skip? <==> d.hemisphere.Some? && NoIceOrLand(maskValues)
    ensures s.Good? <==> d.hemisphere.Some? && !NoIceOrLand(maskValues)
    ensures s.Good? ==> LocationsOf(d, RenumberedAll(d.hemisphere.value, maskValues))
    ensures !s.Good? ==> unchanged(d)
  {
    if d.hemisphere.None? { return Failed("hemisphere not set in shared_dict"); }
    var a := new nat[|maskValues|](i requires 0 <= i < |maskValues| => maskValues[i]);
    assert a[..] == maskValues;
    var onIceOrLand := CountIceAndLand(maskValues);
    Renumber(d.hemisphere.value, a);
    if onIceOrLand == 0 { return Skip; }
    StoreLocations(d, a[..]);
    s := Good;
  }

  /**
   alg_surface_type.process, given the mask values at the track's nadir points: 0 ocean, 1 ice-free
   land, 2 grounded ice, 3 floating ice, 4 Lake Vostok (south) or land outside Greenland (north).
   */
  method SurfaceType(d: SharedDict, maskValues: seq<nat>) returns (s: Status)
    modifies d`surfaceType, d`ocean, d`grounded, d`floating, d`icefree, d`nonGreenland
    ensures s.Failed? <==> d.hemisphere.None?
    ensures s.Skip? <==> d.hemisphere.Some? && forall i :: 0 <= i < |maskValues| ==> maskValues[i] !in {1, 2, 3}
    ensures s.Good? <==> d.hemisphere.Some? && exists i :: 0 <= i < |maskValues| && maskValues[i] in {1, 2, 3}
    ensures s.Good? ==>
      && d.ocean.Some? && d.grounded.Some? && d.floating.Some? && d.icefree.Some? && d.nonGreenland.Some?
      && forall i: nat ::
           && (i in d.ocean.value <==> i < |maskValues| && maskValues[i] == 0)
           && (i in d.grounded.value <==>
                 i < |maskValues| && (maskValues[i] == 2 || (maskValues[i] == 4 && d.hemisphere.value == South)))
           && (i in d.floating.value <==> i < |maskValues| && maskValues[i] == 3)
           && (i in d.icefree.value <==> i < |maskValues| && maskValues[i] == 1)
           && (i in d.nonGreenland.value <==> i < |maskValues| && maskValues[i] == 4 && d.hemisphere.value == North)
    ensures !s.Good? ==> unchanged(d)
  {
    s := TypeTrack(d, maskValues);
    if s.Good? {
      forall i: nat { LocationsBySource(d.hemisphere.value, maskValues, i); }
    }
  }

  /** With source values 0..4 the five location arrays are disjoint and cover every record. */
  lemma LocationsPartition(h: Hemisphere, src: seq<nat>, i: nat)
    requires Only(src, {0, 1, 2, 3, 4}) && i < |src|
    ensures var t := RenumberedAll(h, src);
            exists v :: 0 <= v <= 4 && i in Where(t, v) && forall u :: 0 <= u <= 4 && i in Where(t, u) ==> u == v
  {
    var t := RenumberedAll(h, src);
    assert i in Where(t, t[i]);
  }

  /**
   The skip is documented as "no ice and no ice-free land on the track". A skipped track has none
   after renumbering either, except a southern track with Lake Vostok records (which become grounded
   ice) and no other ice or land; and every track without ice or land is skipped.
   */
  lemma SkipMatchesRenumberedTypesIff(h: Hemisphere, src: seq<nat>)
    requires Only(src, {0, 1, 2, 3, 4})
    ensures NoIceOrLand(RenumberedAll(h, src)) ==> NoIceOrLand(src)
    ensures NoIceOrLand(src) ==> (NoIceOrLand(RenumberedAll(h, src)) <==> !(h == South && 4 in src))
  {
    var t := RenumberedAll(h, src);
    forall i | 0 <= i < |src| && t[i] !in {1, 2, 3}
      ensures src[i] !in {1, 2, 3}
    {
      assert t[i] == Renumbered(h, src[i]);
    }
    if h == South && 4 in src {
      var i :| 0 <= i < |src| && src[i] == 4;
      assert t[i] == 1;
    }
  }

  /** The failing case: a southern track that only crosses Lake Vostok is skipped, as if it had no ice. */
  lemma VostokTrackIsSkipped()
    ensures NoIceOrLand([4]) && RenumberedAll(South, [4]) == [1] && !NoIceOrLand([1])
  {
    assert [1][0] in {1, 2, 3};
  }

  // ---- CATS2008a tide ----

  /** What looking for the tide file finds; without a date in the L1b file's name it raises. */
  datatype CatsFile = Undated | BadDate | NotUnique | Unreadable | Tide(values: seq<Num>)

  function NanToZero(v: seq<Num>): (z: seq<Num>)
    ensures |z| == |v| && forall i :: 0 <= i < |v| ==> z[i].Val? && z[i] == if v[i].NaN? then Val(0.0) else v[i]
  {
    seq(|v|, i requires 0 <= i < |v| => if v[i].NaN? then Val(0.0) else v[i])
  }

  predicate Required(flag: Option<bool>) {
    flag.Some? && flag.value
  }

  predicate SouthernSin(h: Option<Hemisphere>, m: Option<Mode>) {
    h.Some? && h.value == South && m.Some? && m.value == SIN
  }

  /** The location arrays show a record on floating ice or ocean. */
  predicate WaterListed(floating: Option<seq<nat>>, ocean: Option<seq<nat>>) {
    floating.Some? && (|floating.value| > 0 || (ocean.Some? && |ocean.value| > 0))
  }

  /** The tide file that was found has one value per record. */
  predicate TideFits(file: CatsFile, n: nat) {
    file.Tide? && |file.values| == n
  }

  /** alg_cats2008a_tide_correction.process */
  method CatsTide(d: SharedDict, file: CatsFile) returns (s: Status)
    modifies d`catsRequired, d`catsTide
    ensures s.Good? <==>
      || d.hemisphere == Some(North)
      || (d.hemisphere == Some(South) && d.mode.Some? && d.mode != Some(SIN))
      || (SouthernSin(d.hemisphere, d.mode) && d.floating == Some([]) && d.ocean == Some([]))
      || (SouthernSin(d.hemisphere, d.mode) && WaterListed(d.floating, d.ocean) && TideFits(file, d.numRecords))
    ensures s.Failed? <==>
      && SouthernSin(d.hemisphere, d.mode) && WaterListed(d.floating, d.ocean)
      && !file.Undated? && !TideFits(file, d.numRecords)
    ensures s.Raised? <==> !s.Good? && !s.Failed?
    ensures d.catsRequired ==
      Some(s.Good? && SouthernSin(d.hemisphere, d.mode) && WaterListed(d.floating, d.ocean))
    ensures d.catsTide == if Required(d.catsRequired) then Some(NanToZero(file.values)) else old(d.catsTide)
  {
    d.catsRequired := Some(false);
    if d.hemisphere.None? { return Raised("KeyError: hemisphere"); }
    if d.hemisphere.value == North { return Good; }
    if d.mode.None? { return Raised("KeyError: instr_mode"); }
    if d.mode.value != SIN { return Good; }
    if d.floating.None? { return Raised("KeyError: floating_ice_locations"); }
    if |d.floating.value| == 0 {
      if d.ocean.None? { return Raised("KeyError: ocean_locations"); }
      if |d.ocean.value| == 0 { return Good; }
    }
    match file {
      case Undated => return Raised("ValueError: invalid literal for int()");
      case BadDate => return Failed("Could not determine correct month from L1b file name");
      case NotUnique => return Failed("Missing CATS2008a tide correction file");
      case Unreadable => return Failed("Error reading Dataset");
      case Tide(values) =>
        if |values| != d.numRecords {
          return Failed("CATS2008a tide array length mismatch to L1b record size");
        }
        d.catsTide := Some(NanToZero(values));
        d.catsRequired := Some(true);
        return Good;
    }
  }

  // ---- Sum of corrections ----

  /** The L1b variables: 1 Hz corrections and the 1 Hz index of each 20 Hz record. */
  datatype L1b = L1b(index: seq<nat>, dry: Option<seq<Num>>, wet: Option<seq<Num>>, iono: Option<seq<Num>>,
                     solidEarth: Option<seq<Num>>, pole: Option<seq<Num>>, dac: Option<seq<Num>>)
  {
    ghost predicate Covers(v: Option<seq<Num>>) {
      v.Some? ==> forall i :: 0 <= i < |index| ==> index[i] < |v.value|
    }

    /** Every 20 Hz record's index is in range of the 1 Hz variables that are present. */
    ghost predicate Valid() {
      Covers(dry) && Covers(wet) && Covers(iono) && Covers(solidEarth) && Covers(pole) && Covers(dac)
    }

    predicate HasBase() {
      dry.Some? && wet.Some? && iono.Some? && solidEarth.Some? && pole.Some?
    }

    /** var[:].data[ind_meas_1hz_20_ku] */
    function At20Hz(v: Option<seq<Num>>): (s: seq<Num>)
      requires v.Some? && Covers(v)
      ensures |s| == |index|
    {
      seq(|index|, i requires 0 <= i < |index| => v.value[index[i]])
    }

    /** DRY + WET + GIM + OLT + SET + GPT of one record. */
    function Base(fes: Fes, i: nat): Num
      requires Valid() && HasBase() && i < |index| == |fes.loadTide|
    {
      Plus(Plus(Plus(Plus(Plus(At20Hz(dry)[i], At20Hz(wet)[i]), At20Hz(iono)[i]), fes.loadTide[i]),
                At20Hz(solidEarth)[i]), At20Hz(pole)[i])
    }
  }

  function Sums(a: seq<Num>, b: seq<Num>): (s: seq<Num>)
    requires |a| == |b|
    ensures |s| == |a| && forall i :: 0 <= i < |a| ==> s[i] == Plus(a[i], b[i])
  {
    seq(|a|, i requires 0 <= i < |a| => Plus(a[i], b[i]))
  }

  function NaNs(a: seq<Num>): (w: seq<nat>)
    ensures forall i: nat :: i in w <==> i < |a| && a[i].NaN?
    ensures InOrder(w) && forall k :: 0 <= k < |w| ==> w[k] < |a|
  {
    if |a| == 0 then []
    else if a[|a| - 1].NaN? then NaNs(a[..|a| - 1]) + [|a| - 1] else NaNs(a[..|a| - 1])
  }

  /** Both masked additions of one branch: over floating ice, then over ocean. */
  method AddOverWater(sum: array<Num>, ghost t: seq<nat>, floating: seq<nat>, ocean: seq<nat>, terms: seq<Num>)
    requires |t| == |terms| == sum.Length && floating == Where(t, 2) && ocean == Where(t, 0)
    modifies sum
    ensures forall i :: 0 <= i < sum.Length ==>
      sum[i] == if t[i] == 0 || t[i] == 2 then Plus(old(sum[i]), terms[i]) else old(sum[i])
  {
    if |floating| > 0 { AddAt(sum, floating, terms); }
    if |ocean| > 0 { AddAt(sum, ocean, terms); }
    assert forall i: nat :: i < |t| ==> (i in floating <==> t[i] == 2) && (i in ocean <==> t[i] == 0);
  }

  predicate HasWater(t: seq<nat>) {
    exists i :: 0 <= i < |t| && t[i] in {0, 2}
  }

  lemma WaterIff(t: seq<nat>)
    ensures |Where(t, 2)| + |Where(t, 0)| > 0 <==> HasWater(t)
  {
    WhereEmptyIff(t, 0);
    WhereEmptyIff(t, 2);
  }

  /** The arrays that a track's water records call for are there, one value per record. */
  ghost predicate TermsAvailable(h: Hemisphere, m: Option<Mode>, t: seq<nat>, l1b: L1b, cats: Option<seq<Num>>) {
    HasWater(t) ==>
      && l1b.dac.Some?
      && (SouthernSin(Some(h), m) ==> cats.Some? && |cats.value| == |t|)
  }

  /**
   Record i's sum: the base terms; over water in the north the DAC and both FES ocean tides once
   each, over water in southern SIN mode the DAC and the CATS tide once each, and nothing else.
   */
  ghost predicate SumIs(sum: Num, i: nat, h: Hemisphere, m: Option<Mode>, t: seq<nat>, l1b: L1b, fes: Fes,
                        cats: Option<seq<Num>>)
    requires l1b.Valid() && l1b.HasBase() && |t| == |l1b.index| && fes.Covers(|t|)
    requires i < |t| && TermsAvailable(h, m, t, l1b, cats)
  {
    var base := l1b.Base(fes, i);
    if t[i] !in {0, 2} then sum == base
    else
      assert HasWater(t);
      var dac := l1b.At20Hz(l1b.dac)[i];
      if h == North then sum == Plus(base, Plus(Plus(dac, fes.oceanTideEq[i]), fes.oceanTide[i]))
      else if SouthernSin(Some(h), m) then sum == Plus(base, Plus(dac, cats.value[i]))
      else sum == base
  }

  /** The two blocks of masked additions; an array that was never loaded makes them raise. */
  method AddOceanTerms(sum: array<Num>, h: Hemisphere, m: Option<Mode>, ghost t: seq<nat>, floating: seq<nat>,
                       ocean: seq<nat>, l1b: L1b, fes: Fes, cats: Option<seq<Num>>) returns (s: Status)
    requires l1b.Valid() && l1b.HasBase() && |t| == |l1b.index| && fes.Covers(|t|)
    requires floating == Where(t, 2) && ocean == Where(t, 0) && sum.Length == |t|
    requires forall i :: 0 <= i < |t| ==> sum[i] == l1b.Base(fes, i)
    requires cats.Some? ==> |cats.value| == |t|
    modifies sum
    ensures s.Good? || s.Raised?
    ensures s.Good? <==> TermsAvailable(h, m, t, l1b, cats) && (h == South ==> m.Some?)
    ensures s.Good? ==> forall i :: 0 <= i < |t| ==> SumIs(sum[i], i, h, m, t, l1b, fes, cats)
  {
    WaterIff(t);
    var dac: Option<seq<Num>> := None;
    if |floating| + |ocean| > 0 {
      if l1b.dac.None? { return Raised("KeyError: hf_fluct_total_cor_01"); }
      dac := Some(l1b.At20Hz(l1b.dac));
      if h == North {
        AddOverWater(sum, t, floating, ocean, Sums(Sums(dac.value, fes.oceanTideEq), fes.oceanTide));
      }
    }
    if h == South {
      if m.None? { return Raised("KeyError: instr_mode"); }
      if m.value == SIN && (|floating| > 0 || |ocean| > 0) {
        if dac.None? { return Raised("UnboundLocalError: hf_fluct_total_cor_20"); }
        if cats.None? { return Raised("TypeError: 'NoneType' object is not subscriptable"); }
        AddOverWater(sum, t, floating, ocean, Sums(dac.value, cats.value));
      }
    }
    s := Good;
  }

  /** The CATS array alg_geo_corrections works with: the stored one if it is required, else None. */
  function CatsInUse(required: Option<bool>, tide: Option<seq<Num>>): Option<seq<Num>> {
    if Required(required) then tide else None
  }

  /** alg_geo_corrections.process, on a track of types t; the location arrays may be missing. */
  method GeoCorrections(d: SharedDict, l1b: L1b, ghost t: seq<nat>) returns (s: Status)
    requires l1b.Valid() && |t| == |l1b.index|
    requires (d.floating.Some? ==> d.floating.value == Where(t, 2)) && (d.ocean.Some? ==> d.ocean.value == Where(t, 0))
    requires d.fes.Some? ==> d.fes.value.Covers(|t|)
    requires Required(d.catsRequired) && d.catsTide.Some? ==> |d.catsTide.value| == |t|
    modifies d`sumCor, d`invalid
    ensures s.Failed? <==>
      || d.fes.None?
      || (Required(d.catsRequired) && d.catsTide.None?)
      || (d.catsRequired.Some? && !l1b.HasBase())
    ensures s.Good? <==>
      && d.fes.Some? && d.catsRequired.Some? && (Required(d.catsRequired) ==> d.catsTide.Some?) && l1b.HasBase()
      && d.floating.Some? && d.ocean.Some? && |t| > 0
      && d.hemisphere.Some? && (d.hemisphere == Some(South) ==> d.mode.Some?)
      && TermsAvailable(d.hemisphere.value, d.mode, t, l1b, CatsInUse(d.catsRequired, d.catsTide))
    ensures s.Raised? <==> !s.Good? && !s.Failed?
    ensures s.Good? && d.hemisphere == Some(South) && d.mode == Some(SIN) && !Required(d.catsRequired) ==>
      forall i :: 0 <= i < |t| ==> t[i] !in {0, 2}
    ensures s.Good? ==>
      && d.sumCor.Some? && |d.sumCor.value| == |t| && d.invalid == Some(NaNs(d.sumCor.value))
      && forall i :: 0 <= i < |t| ==>
           SumIs(d.sumCor.value[i], i, d.hemisphere.value, d.mode, t, l1b, d.fes.value,
                 CatsInUse(d.catsRequired, d.catsTide))
    ensures !s.Good? ==> d.sumCor == old(d.sumCor)
  {
    if d.fes.None? { return Failed("fes2014b_corrections.load_tide_20 missing from shared_dict"); }
    if d.catsRequired.None? { return Raised("KeyError: cats_tide_required"); }
    var cats: Option<seq<Num>> := None;
    if d.catsRequired.value {
      if d.catsTide.None? { return Failed("cats_tide missing from shared_dict"); }
      cats := d.catsTide;
    }
    if !l1b.HasBase() { return Failed("Error reading l1b tide variables"); }
    if d.floating.None? || d.ocean.None? { return Raised("KeyError: locations"); }
    if d.hemisphere.None? { return Raised("KeyError: hemisphere"); }
    var fes := d.fes.value;
    var sum := new Num[|l1b.index|](i requires 0 <= i < |l1b.index| => l1b.Base(fes, i));
    s := AddOceanTerms(sum, d.hemisphere.value, d.mode, t, d.floating.value, d.ocean.value, l1b, fes, cats);
    if s.Raised? { return; }
    d.invalid := Some(NaNs(sum[..]));
    if sum.Length == 0 { return Raised("ZeroDivisionError: division by zero"); }
    d.sumCor := Some(sum[..]);
  }

  // ---- The sums, term by term ----

  predicate NoNaN(terms: seq<Num>) {
    forall i :: 0 <= i < |terms| ==> terms[i].Val?
  }

  function Values(terms: seq<Num>): (v: seq<real>)
    requires NoNaN(terms)
    ensures |v| == |terms| && forall i :: 0 <= i < |v| ==> terms[i] == Val(v[i])
  {
    seq(|terms|, i requires 0 <= i < |terms| => terms[i].value)
  }

  /** The value is the real sum of the terms, or NaN exactly if one of them is. */
  ghost predicate AddsUp(v: Num, terms: seq<Num>) {
    if NoNaN(terms) then v == Val(Sum(Values(terms))) else v == NaN
  }

  lemma AddsUpOne(t: Num)
    ensures AddsUp(t, [t])
  {
    if t.Val? {
      assert Values([t]) == [t.value];
      SumOne(t.value);
    }
  }

  lemma AddsUpPlus(u: Num, us: seq<Num>, v: Num, vs: seq<Num>)
    requires AddsUp(u, us) && AddsUp(v, vs)
    ensures AddsUp(Plus(u, v), us + vs)
  {
    assert NoNaN(us + vs) <==> NoNaN(us) && NoNaN(vs) by {
      assert forall i :: 0 <= i < |us| ==> us[i] == (us + vs)[i];
      assert forall i :: 0 <= i < |vs| ==> vs[i] == (us + vs)[|us| + i];
    }
    if NoNaN(us) && NoNaN(vs) {
      assert Values(us + vs) == Values(us) + Values(vs);
      SumAppend(Values(us), Values(vs));
    }
  }

  lemma AddsUpTwo(a: Num, b: Num)
    ensures AddsUp(Plus(a, b), [a, b])
  {
    AddsUpOne(a);
    AddsUpOne(b);
    AddsUpPlus(a, [a], b, [b]);
    assert [a] + [b] == [a, b];
  }

  lemma AddsUpMore(u: Num, us: seq<Num>, t: Num)
    requires AddsUp(u, us)
    ensures AddsUp(Plus(u, t), us + [t])
  {
    AddsUpOne(t);
    AddsUpPlus(u, us, t, [t]);
  }

  /** The base part is the sum of the six terms that every record gets. */
  lemma BaseAddsUp(l1b: L1b, fes: Fes, i: nat)
    requires l1b.Valid() && l1b.HasBase() && i < |l1b.index| && fes.Covers(|l1b.index|)
    ensures var k := l1b.index[i];
            AddsUp(l1b.Base(fes, i), [l1b.dry.value[k], l1b.wet.value[k], l1b.iono.value[k], fes.loadTide[i],
                                      l1b.solidEarth.value[k], l1b.pole.value[k]])
  {
    var k := l1b.index[i];
    var dry, wet, iono := l1b.dry.value[k], l1b.wet.value[k], l1b.iono.value[k];
    var load, solid, pole := fes.loadTide[i], l1b.solidEarth.value[k], l1b.pole.value[k];
    AddsUpTwo(dry, wet);
    var v := Plus(dry, wet);
    AddsUpMore(v, [dry, wet], iono);
    assert [dry, wet] + [iono] == [dry, wet, iono];
    v := Plus(v, iono);
    AddsUpMore(v, [dry, wet, iono], load);
    assert [dry, wet, iono] + [load] == [dry, wet, iono, load];
    v := Plus(v, load);
    AddsUpMore(v, [dry, wet, iono, load], solid);
    assert [dry, wet, iono, load] + [solid] == [dry, wet, iono, load, solid];
    v := Plus(v, solid);
    AddsUpMore(v, [dry, wet, iono, load, solid], pole);
    assert [dry, wet, iono, load, solid] + [pole] == [dry, wet, iono, load, solid, pole];
  }

  /** Over northern water the DAC and both FES ocean tides are added to them. */
  lemma NorthernWaterAddsUp(base: Num, terms: seq<Num>, dac: Num, eq: Num, ocean: Num)
    requires AddsUp(base, terms)
    ensures AddsUp(Plus(base, Plus(Plus(dac, eq), ocean)), terms + [dac, eq, ocean])
  {
    AddsUpTwo(dac, eq);
    AddsUpMore(Plus(dac, eq), [dac, eq], ocean);
    assert [dac, eq] + [ocean] == [dac, eq, ocean];
    AddsUpPlus(base, terms, Plus(Plus(dac, eq), ocean), [dac, eq, ocean]);
  }

  /** Over southern water in SIN mode the DAC and the CATS tide. */
  lemma SouthernWaterAddsUp(base: Num, terms: seq<Num>, dac: Num, cats: Num)
    requires AddsUp(base, terms)
    ensures AddsUp(Plus(base, Plus(dac, cats)), terms + [dac, cats])
  {
    AddsUpTwo(dac, cats);
    AddsUpPlus(base, terms, Plus(dac, cats), [dac, cats]);
  }

  /** A record's sum, by the value the mask has for it: 0 is ocean and 3 floating ice. */
  ghost predicate SpelledOut(sum: Num, i: nat, h: Hemisphere, m: Option<Mode>, src: seq<nat>, l1b: L1b, fes: Fes,
                             cats: Option<seq<Num>>)
    requires l1b.Valid() && l1b.HasBase() && |src| == |l1b.index| && fes.Covers(|src|) && i < |src|
  {
    var k := l1b.index[i];
    var base := [l1b.dry.value[k], l1b.wet.value[k], l1b.iono.value[k], fes.loadTide[i],
                 l1b.solidEarth.value[k], l1b.pole.value[k]];
    if src[i] !in {0, 3} || (h == South && m != Some(SIN)) then AddsUp(sum, base)
    else if h == North then
      l1b.dac.Some? && AddsUp(sum, base + [l1b.dac.value[k], fes.oceanTideEq[i], fes.oceanTide[i]])
    else
      && l1b.dac.Some? && cats.Some? && |cats.value| == |src|
      && AddsUp(sum, base + [l1b.dac.value[k], cats.value[i]])
  }

  lemma SumSpelledOut(sum: Num, i: nat, h: Hemisphere, m: Option<Mode>, src: seq<nat>, l1b: L1b, fes: Fes,
                      cats: Option<seq<Num>>)
    requires l1b.Valid() && l1b.HasBase() && |src| == |l1b.index| && fes.Covers(|src|) && i < |src|
    requires TermsAvailable(h, m, RenumberedAll(h, src), l1b, cats)
    requires SumIs(sum, i, h, m, RenumberedAll(h, src), l1b, fes, cats)
    ensures SpelledOut(sum, i, h, m, src, l1b, fes, cats)
  {
    var t, k := RenumberedAll(h, src), l1b.index[i];
    BaseAddsUp(l1b, fes, i);
    assert t[i] == Renumbered(h, src[i]);
    if src[i] in {0, 3} {
      assert t[i] in {0, 2} && HasWater(t);
      var base := [l1b.dry.value[k], l1b.wet.value[k], l1b.iono.value[k], fes.loadTide[i],
                   l1b.solidEarth.value[k], l1b.pole.value[k]];
      if h == North {
        NorthernWaterAddsUp(l1b.Base(fes, i), base, l1b.dac.value[k], fes.oceanTideEq[i], fes.oceanTide[i]);
      } else if m == Some(SIN) {
        SouthernWaterAddsUp(l1b.Base(fes, i), base, l1b.dac.value[k], cats.value[i]);
      }
    }
  }

  // ---- The three in a row ----

  /** Southern SIN track with a record on floating ice or ocean: it needs the CATS tide. */
  predicate NeedsCats(h: Option<Hemisphere>, m: Option<Mode>, t: seq<nat>) {
    SouthernSin(h, m) && HasWater(t)
  }

  /** Types after the surface type algorithm; nothing without a hemisphere. */
  function TypesOf(h: Option<Hemisphere>, maskValues: seq<nat>): (t: seq<nat>)
    ensures h.Some? ==> t == RenumberedAll(h.value, maskValues)
  {
    if h.None? then [] else RenumberedAll(h.value, maskValues)
  }

  /** With a southern hemisphere's mode and the file's tide where the track needs them. */
  predicate TideKnown(h: Option<Hemisphere>, m: Option<Mode>, t: seq<nat>, file: CatsFile) {
    (h == Some(South) ==> m.Some?) && (NeedsCats(h, m, t) ==> TideFits(file, |t|))
  }

  function Read(file: CatsFile): Option<seq<Num>> {
    if file.Tide? then Some(NanToZero(file.values)) else None
  }

  /** CATS tide, then geo-corrections, on a track whose types the surface type algorithm stored. */
  method TideThenSum(d: SharedDict, ghost t: seq<nat>, file: CatsFile, l1b: L1b) returns (s: Status)
    requires l1b.Valid() && LocationsOf(d, t) && d.numRecords == |t| == |l1b.index| && |t| > 0 && d.hemisphere.Some?
    requires d.fes.Some? ==> d.fes.value.Covers(|t|)
    modifies d`catsRequired, d`catsTide, d`sumCor, d`invalid
    ensures !s.Skip?
    ensures s.Good? <==>
      && d.fes.Some? && l1b.HasBase() && TideKnown(d.hemisphere, d.mode, t, file) && (HasWater(t) ==> l1b.dac.Some?)
    ensures s.Raised? <==>
      || (d.hemisphere == Some(South) && d.mode.None?)
      || (NeedsCats(d.hemisphere, d.mode, t) && file.Undated?)
      || (TideKnown(d.hemisphere, d.mode, t, file) && d.fes.Some? && l1b.HasBase() && HasWater(t) && l1b.dac.None?)
    ensures s.Good? ==>
      && d.catsRequired == Some(NeedsCats(d.hemisphere, d.mode, t))
      && d.sumCor.Some? && |d.sumCor.value| == |t| && d.invalid == Some(NaNs(d.sumCor.value))
      && forall i :: 0 <= i < |t| ==>
           SumIs(d.sumCor.value[i], i, d.hemisphere.value, d.mode, t, l1b, d.fes.value, Read(file))
  {
    WaterIff(t);
    assert WaterListed(d.floating, d.ocean) <==> HasWater(t);
    s := CatsTide(d, file);
    assert s.Good? <==> TideKnown(d.hemisphere, d.mode, t, file);
    if !s.Good? { return; }
    assert Required(d.catsRequired) <==> NeedsCats(d.hemisphere, d.mode, t);
    assert CatsInUse(d.catsRequired, d.catsTide) == if NeedsCats(d.hemisphere, d.mode, t) then Read(file) else None;
    s := GeoCorrections(d, l1b, t);
    if s.Good? {
      SameTermsRead(d.sumCor.value, d.hemisphere.value, d.mode, t, l1b, d.fes.value,
                    CatsInUse(d.catsRequired, d.catsTide), Read(file));
    }
  }

  /**
   Surface type, then CATS tide, then geo-corrections on one file, given the mask values of its records
   (none if there is no mask for the hemisphere). The CATS tide is required exactly
   for a southern SIN track with water. The run succeeds exactly when the track has ice or land, the
   hemisphere, mode, FES and base corrections are there, and water finds its DAC and the tide it
   needs; then each record's sum is its base terms plus one copy of the terms its hemisphere, mode
   and surface call for, read from the L1b file, the FES model and the tide file themselves.
   */
  method RunCorrections(d: SharedDict, maskValues: seq<nat>, file: CatsFile, l1b: L1b) returns (s: Status)
    requires l1b.Valid() && d.numRecords == |l1b.index| && (|maskValues| == d.numRecords || maskValues == [])
    requires d.fes.Some? ==> d.fes.value.Covers(d.numRecords)
    modifies d
    ensures d.hemisphere == old(d.hemisphere) && d.mode == old(d.mode) && d.fes == old(d.fes)
    ensures s.Skip? <==> d.hemisphere.Some? && NoIceOrLand(maskValues)
    ensures s.Good? <==>
      && d.hemisphere.Some? && !NoIceOrLand(maskValues) && d.fes.Some? && l1b.HasBase()
      && TideKnown(d.hemisphere, d.mode, TypesOf(d.hemisphere, maskValues), file)
      && (HasWater(TypesOf(d.hemisphere, maskValues)) ==> l1b.dac.Some?)
    ensures s.Raised? <==>
      var t := TypesOf(d.hemisphere, maskValues);
      && d.hemisphere.Some? && !NoIceOrLand(maskValues)
      && ((d.hemisphere == Some(South) && d.mode.None?)
          || (NeedsCats(d.hemisphere, d.mode, t) && file.Undated?)
          || (TideKnown(d.hemisphere, d.mode, t, file) && d.fes.Some? && l1b.HasBase() && HasWater(t) && l1b.dac.None?))
    ensures s.Good? ==>
      var t := TypesOf(d.hemisphere, maskValues);
      && d.catsRequired == Some(NeedsCats(d.hemisphere, d.mode, t))
      && d.sumCor.Some? && |d.sumCor.value| == |maskValues| && d.invalid == Some(NaNs(d.sumCor.value))
      && forall i :: 0 <= i < |maskValues| ==>
           SumIs(d.sumCor.value[i], i, d.hemisphere.value, d.mode, t, l1b, d.fes.value, Read(file))
    ensures s.Good? ==> forall i :: 0 <= i < |maskValues| ==>
      SpelledOut(d.sumCor.value[i], i, d.hemisphere.value, d.mode, maskValues, l1b, d.fes.value, Read(file))
  {
    s := TypeTrack(d, maskValues);
    if s.Good? {
      s := TideThenSum(d, TypesOf(d.hemisphere, maskValues), file, l1b);
      if s.Good? {
        forall i | 0 <= i < |maskValues|
          ensures SpelledOut(d.sumCor.value[i], i, d.hemisphere.value, d.mode, maskValues, l1b, d.fes.value, Read(file))
        {
          SumSpelledOut(d.sumCor.value[i], i, d.hemisphere.value, d.mode, maskValues, l1b, d.fes.value, Read(file));
        }
      }
    }
  }

  /** The tide array is read only where southern SIN water calls for it. */
  lemma SameTermsRead(sums: seq<Num>, h: Hemisphere, m: Option<Mode>, t: seq<nat>, l1b: L1b, fes: Fes,
                      used: Option<seq<Num>>, read: Option<seq<Num>>)
    requires l1b.Valid() && l1b.HasBase() && |t| == |l1b.index| && fes.Covers(|t|)
    requires |sums| == |t| && TermsAvailable(h, m, t, l1b, used) && (NeedsCats(Some(h), m, t) ==> used == read)
    requires forall i :: 0 <= i < |t| ==> SumIs(sums[i], i, h, m, t, l1b, fes, used)
    ensures TermsAvailable(h, m, t, l1b, read)
    ensures forall i :: 0 <= i < |t| ==> SumIs(sums[i], i, h, m, t, l1b, fes, read)
  {
    forall i | 0 <= i < |t|
      ensures SumIs(sums[i], i, h, m, t, l1b, fes, read)
    {
      assert SumIs(sums[i], i, h, m, t, l1b, fes, used);
    }
  }
}
