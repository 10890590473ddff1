/**
 The breakpoint writer: a nested dictionary becomes NetCDF groups and variables, and one registry of
 dimensions, shared by all groups, gives every array extent a named dimension, created in the group
 where the extent is first met.
 */
module Breakpoints {
  import opened Numbers
  import LogOrder

  /** A value of the shared dictionary; lists count as arrays, numbers and strings become attributes. */
  datatype Value =
    | Dict(items: seq<Item>)
    | Array(shape: seq<nat>)
    | Attribute
    | Unsupported

  datatype Item = Item(key: string, value: Value)

  /** A group, as the path of keys from the root. */
  type Group = seq<string>

  /** Where a variable belongs: the group, key and shape of an array. */
  datatype Site = Site(group: Group, key: string, shape: seq<nat>)

  datatype Dimension = Dimension(name: string, size: nat, group: Group)

  datatype Variable = Variable(site: Site, dims: seq<Dimension>)

  // ---- What a walk over the dictionary meets ----

  /** The 1-D to 3-D arrays in the order visited, up to the first unsupported value. */
  datatype Visit = Visit(sites: seq<Site>, ok: bool)

  function VisitValue(group: Group, key: string, v: Value): Visit
    decreases v, 1
  {
    match v
    case Dict(items) => VisitItems(group + [key], items)
    case Array(shape) =>
      if 1 <= |shape| <= 3 then Visit([Site(group, key, shape)], true) else Visit([], |shape| > 3)
    case Attribute => Visit([], true)
    case Unsupported => Visit([], false)
  }

  function VisitItems(group: Group, items: seq<Item>): Visit
    decreases items, 0
  {
    if |items| == 0 then Visit([], true)
    else
      var front := VisitItems(group, items[..|items| - 1]);
      if !front.ok then front
      else
        var last := VisitValue(group, items[|items| - 1].key, items[|items| - 1].value);
        Visit(front.sites + last.sites, last.ok)
  }

  /** The array of a site is somewhere in the value: in it, or in an item of it, one group further down. */
  ghost predicate Holds(v: Value, group: Group, key: string, site: Site)
    decreases v, 1
  {
    match v
    case Dict(items) => HoldsAmong(items, group + [key], site)
    case Array(shape) => site == Site(group, key, shape) && (|shape| == 1 || |shape| == 2 || |shape| == 3)
    case _ => false
  }

  ghost predicate HoldsAmong(items: seq<Item>, group: Group, site: Site)
    decreases items, 0
  {
    |items| > 0 &&
    (HoldsAmong(items[..|items| - 1], group, site)
     || Holds(items[|items| - 1].value, group, items[|items| - 1].key, site))
  }

  /** Nothing that makes the writer raise: an unsupported value, or an array without dimensions. */
  ghost predicate Writable(v: Value)
    decreases v, 1
  {
    match v
    case Dict(items) => AllWritable(items)
    case Array(shape) => |shape| != 0
    case Attribute => true
    case Unsupported => false
  }

  ghost predicate AllWritable(items: seq<Item>)
    decreases items, 0
  {
    |items| > 0 ==> AllWritable(items[..|items| - 1]) && Writable(items[|items| - 1].value)
  }

  /** The walk raises exactly on a dictionary that is not writable, and otherwise visits each of its arrays. */
  lemma {:induction false} VisitsAll(group: Group, items: seq<Item>)
    ensures VisitItems(group, items).ok <==> AllWritable(items)
    ensures AllWritable(items) ==>
      forall site :: site in VisitItems(group, items).sites <==> HoldsAmong(items, group, site)
    decreases items, 0
  {
    if |items| > 0 {
      VisitsAll(group, items[..|items| - 1]);
      VisitsValue(group, items[|items| - 1].key, items[|items| - 1].value);
    }
  }

  lemma {:induction false} VisitsValue(group: Group, key: string, v: Value)
    ensures VisitValue(group, key, v).ok <==> Writable(v)
    ensures Writable(v) ==> forall site :: site in VisitValue(group, key, v).sites <==> Holds(v, group, key, site)
    decreases v, 1
  {
    if v.Dict? { VisitsAll(group + [key], v.items); }
  }

  /** An array extent, with the group it is met in. */
  datatype Extent = Extent(size: nat, group: Group)

  function ExtentsOf(group: Group, shape: seq<nat>): (es: seq<Extent>)
    ensures |es| == |shape| && forall i :: 0 <= i < |es| ==> es[i] == Extent(shape[i], group)
  {
    seq(|shape|, i requires 0 <= i < |shape| => Extent(shape[i], group))
  }

  /** All extents that a walk over these arrays meets, in order. */
  function Met(sites: seq<Site>): seq<Extent> {
    if |sites| == 0 then []
    else Met(sites[..|sites| - 1]) + ExtentsOf(sites[|sites| - 1].group, sites[|sites| - 1].shape)
  }

  // ---- The registry's contents ----

  predicate Has(es: seq<Extent>, size: nat) {
    exists i :: 0 <= i < |es| && es[i].size == size
  }

  function AddOne(es: seq<Extent>, x: Extent): seq<Extent> {
    if Has(es, x.size) then es else es + [x]
  }

  function AddAll(es: seq<Extent>, xs: seq<Extent>): seq<Extent> {
    if |xs| == 0 then es else AddOne(AddAll(es, xs[..|xs| - 1]), xs[|xs| - 1])
  }

  lemma {:induction false} AddAllAppend(es: seq<Extent>, a: seq<Extent>, b: seq<Extent>)
    ensures AddAll(es, a + b) == AddAll(AddAll(es, a), b)
  {
    if |b| == 0 {
      assert a + b == a;
    } else {
      assert (a + b)[..|a + b| - 1] == a + b[..|b| - 1];
      AddAllAppend(es, a, b[..|b| - 1]);
    }
  }

  lemma MetLast(front: seq<Site>, last: Site)
    ensures Met(front + [last]) == Met(front) + ExtentsOf(last.group, last.shape)
  {
    var sites := front + [last];
    assert sites[..|sites| - 1] == front && sites[|sites| - 1] == last;
  }

  lemma {:induction false} MetAppend(a: seq<Site>, b: seq<Site>)
    ensures Met(a + b) == Met(a) + Met(b)
  {
    if |b| == 0 {
      assert a + b == a;
    } else {
      var front, last := b[..|b| - 1], b[|b| - 1];
      assert b == front + [last] && a + b == (a + front) + [last];
      MetLast(front, last);
      MetLast(a + front, last);
      MetAppend(a, front);
    }
  }

  lemma MetOne(site: Site)
    ensures Met([site]) == ExtentsOf(site.group, site.shape)
  {
    var sites := [site];
    assert sites[..0] == [];
    assert [] + ExtentsOf(site.group, site.shape) == ExtentsOf(site.group, site.shape);
  }

  lemma AddOneMore(es: seq<Extent>, xs: seq<Extent>, k: nat)
    requires k < |xs|
    ensures AddAll(es, xs[..k + 1]) == AddOne(AddAll(es, xs[..k]), xs[k])
  {
    assert xs[..k + 1][..k] == xs[..k];
  }

  function FirstIndex(xs: seq<Extent>, size: nat): (i: nat)
    requires Has(xs, size)
    ensures i < |xs| && xs[i].size == size && !Has(xs[..i], size)
  {
    var front := xs[..|xs| - 1];
    if Has(front, size) then
      var i := FirstIndex(front, size);
      assert front[..i] == xs[..i];
      i
    else |xs| - 1
  }

  ghost predicate DistinctSizes(es: seq<Extent>) {
    forall i, j :: 0 <= i < j < |es| ==> es[i].size != es[j].size
  }

  lemma HasAppend(es: seq<Extent>, x: Extent, size: nat)
    ensures Has(es + [x], size) <==> Has(es, size) || x.size == size
  {
    var all := es + [x];
    if Has(es, size) {
      var i :| 0 <= i < |es| && es[i].size == size;
      assert all[i].size == size;
    }
    if x.size == size { assert all[|es|].size == size; }
  }

  /** A first visit stays the first visit as the walk goes on. */
  lemma FirstIndexStays(xs: seq<Extent>, last: Extent, size: nat)
    requires Has(xs, size)
    ensures Has(xs + [last], size) && FirstIndex(xs + [last], size) == FirstIndex(xs, size)
  {
    HasAppend(xs, last, size);
    assert (xs + [last])[..|xs|] == xs;
  }

  /** Registered extents are those met, each as it was first met, in the order of their first visits. */
  ghost predicate FirstVisits(r: seq<Extent>, xs: seq<Extent>) {
    && DistinctSizes(r)
    && (forall size :: Has(r, size) <==> Has(xs, size))
    && (forall i :: 0 <= i < |r| ==> Has(xs, r[i].size) && r[i] == xs[FirstIndex(xs, r[i].size)])
    && (forall i, j :: 0 <= i < j < |r| ==> FirstIndex(xs, r[i].size) < FirstIndex(xs, r[j].size))
  }

  lemma {:induction false} AddAllIsFirstVisits(xs: seq<Extent>)
    ensures FirstVisits(AddAll([], xs), xs)
  {
    if |xs| > 0 {
      var front, last := xs[..|xs| - 1], xs[|xs| - 1];
      AddAllIsFirstVisits(front);
      assert xs == front + [last];
      OneMoreFirstVisit(AddAll([], front), front, last);
    }
  }

  lemma OneMoreFirstVisit(r: seq<Extent>, xs: seq<Extent>, last: Extent)
    requires FirstVisits(r, xs)
    ensures FirstVisits(AddOne(r, last), xs + [last])
  {
    var r', xs' := AddOne(r, last), xs + [last];
    forall size
      ensures Has(r', size) <==> Has(xs', size)
    {
      HasAppend(r, last, size);
      HasAppend(xs, last, size);
    }
    forall i | 0 <= i < |r|
      ensures Has(xs', r[i].size) && FirstIndex(xs', r[i].size) == FirstIndex(xs, r[i].size) < |xs|
      ensures r[i] == xs'[FirstIndex(xs', r[i].size)]
    {
      FirstIndexStays(xs, last, r[i].size);
    }
    if !Has(r, last.size) { FirstIndexOfNew(xs, last); }
  }

  lemma FirstIndexOfNew(xs: seq<Extent>, last: Extent)
    requires !Has(xs, last.size)
    ensures Has(xs + [last], last.size) && FirstIndex(xs + [last], last.size) == |xs|
  {
    HasAppend(xs, last, last.size);
    assert (xs + [last])[..|xs|] == xs;
  }

  // ---- The writer ----

  function DimName(i: nat): string {
    "dim" + LogOrder.Decimal(i + 1)
  }

  function Sites(vs: seq<Variable>): (s: seq<Site>)
    ensures |s| == |vs| && forall i :: 0 <= i < |vs| ==> s[i] == vs[i].site
  {
    seq(|vs|, i requires 0 <= i < |vs| => vs[i].site)
  }

  /** The extents a list of dimensions stands for. */
  function Registered(dims: seq<Dimension>): (es: seq<Extent>)
    ensures |es| == |dims| && forall i :: 0 <= i < |es| ==> es[i] == Extent(dims[i].size, dims[i].group)
  {
    seq(|dims|, i requires 0 <= i < |dims| => Extent(dims[i].size, dims[i].group))
  }

  /** Dimensions that are registered ones, with sizes equal to a shape. */
  predicate Measures(ds: seq<Dimension>, shape: seq<nat>, dims: seq<Dimension>) {
    |ds| == |shape| && forall i :: 0 <= i < |ds| ==> ds[i] in dims && ds[i].size == shape[i]
  }

  predicate Fits(v: Variable, dims: seq<Dimension>) {
    Measures(v.dims, v.site.shape, dims)
  }

  lemma StillMeasures(ds: seq<Dimension>, shape: seq<nat>, dims: seq<Dimension>, more: seq<Dimension>)
    requires Measures(ds, shape, dims) && dims <= more
    ensures Measures(ds, shape, more)
  {
    assert forall d :: d in dims ==> d in more;
  }

  lemma MeasuresOneMore(ds: seq<Dimension>, shape: seq<nat>, k: nat, d: Dimension, dims: seq<Dimension>)
    requires k < |shape| && Measures(ds, shape[..k], dims) && d in dims && d.size == shape[k]
    ensures Measures(ds + [d], shape[..k + 1], dims)
  {
    assert shape[..k + 1] == shape[..k] + [shape[k]];
  }

  ghost predicate AllFit(vs: seq<Variable>, dims: seq<Dimension>) {
    forall i :: 0 <= i < |vs| ==> Fits(vs[i], dims)
  }

  lemma StillFit(vs: seq<Variable>, dims: seq<Dimension>, more: seq<Dimension>)
    requires AllFit(vs, dims) && dims <= more
    ensures AllFit(vs, more)
  {
    forall i | 0 <= i < |vs|
      ensures Fits(vs[i], more)
    {
      assert Fits(vs[i], dims);
      StillMeasures(vs[i].dims, vs[i].site.shape, dims, more);
    }
  }

  /** What was there before, and then the variables and dimensions of a walk over these arrays. */
  ghost predicate Wrote(before: seq<Variable>, dims: seq<Dimension>, after: seq<Variable>, more: seq<Dimension>,
                        sites: seq<Site>) {
    && Sites(after) == Sites(before) + sites
    && Registered(more) == AddAll(Registered(dims), Met(sites))
  }

  lemma WroteNothing(vs: seq<Variable>, dims: seq<Dimension>)
    ensures Wrote(vs, dims, vs, dims, [])
  {}

  lemma WroteThen(v0: seq<Variable>, d0: seq<Dimension>, v1: seq<Variable>, d1: seq<Dimension>,
                  v2: seq<Variable>, d2: seq<Dimension>, a: seq<Site>, b: seq<Site>)
    requires Wrote(v0, d0, v1, d1, a) && Wrote(v1, d1, v2, d2, b)
    ensures Wrote(v0, d0, v2, d2, a + b)
  {
    RegisterBoth(Registered(d0), a, b);
    JoinSites(Sites(v0), a, b);
  }

  lemma RegisterBoth(es: seq<Extent>, a: seq<Site>, b: seq<Site>)
    ensures AddAll(es, Met(a + b)) == AddAll(AddAll(es, Met(a)), Met(b))
  {
    MetAppend(a, b);
    AddAllAppend(es, Met(a), Met(b));
  }

  lemma JoinSites(before: seq<Site>, a: seq<Site>, b: seq<Site>)
    ensures before + a + b == before + (a + b)
  {}

  lemma WroteOne(before: seq<Variable>, dims: seq<Dimension>, v: Variable, more: seq<Dimension>)
    requires Registered(more) == AddAll(Registered(dims), ExtentsOf(v.site.group, v.site.shape))
    ensures Wrote(before, dims, before + [v], more, [v.site])
  {
    MetOne(v.site);
  }

  /** dim_sizes, dim_names and dims, with the variables created so far. */
  class Registry {
    var sizes: seq<nat>
    var names: seq<string>
    var dims: seq<Dimension>
    var variables: seq<Variable>

    ghost predicate DimsValid()
      reads this
    {
      && |sizes| == |names| == |dims| && Distinct(sizes)
      && (forall i :: 0 <= i < |sizes| ==>
            names[i] == DimName(i) && dims[i].name == names[i] && dims[i].size == sizes[i])
    }

    ghost predicate Valid()
      reads this
    {
      DimsValid() && AllFit(variables, dims)
    }

    constructor ()
      ensures Valid() && dims == [] && variables == []
    {
      sizes, names, dims, variables := [], [], [], [];
    }

    /** Look an extent up, or register it under the next name in the group at hand. */
    method DimensionFor(group: Group, size: nat) returns (dim: Dimension)
      requires DimsValid()
      modifies this`sizes, this`names, this`dims
      ensures DimsValid()
      ensures Registered(dims) == AddOne(Registered(old(dims)), Extent(size, group))
      ensures dim in dims && dim.size == size
      ensures old(dims) <= dims
    {
      assert forall i :: 0 <= i < |dims| ==> Registered(dims)[i].size == sizes[i];
      if size !in sizes {
        sizes := sizes + [size];
        names := names + [DimName(|sizes| - 1)];
        dim := Dimension(DimName(|sizes| - 1), size, group);
        dims := dims + [dim];
        assert Registered(dims) == Registered(old(dims)) + [Extent(size, group)];
      } else {
        var i :| 0 <= i < |sizes| && sizes[i] == size;
        dim := dims[i];
        assert Registered(dims)[i].size == size;
      }
    }

    method DimensionsFor(group: Group, shape: seq<nat>) returns (ds: seq<Dimension>)
      requires DimsValid()
      modifies this`sizes, this`names, this`dims
      ensures DimsValid()
      ensures Registered(dims) == AddAll(Registered(old(dims)), ExtentsOf(group, shape))
      ensures Measures(ds, shape, dims)
      ensures old(dims) <= dims
    {
      ghost var xs := ExtentsOf(group, shape);
      ds := [];
      for k := 0 to |shape|
        invariant DimsValid() && old(dims) <= dims
        invariant Registered(dims) == AddAll(Registered(old(dims)), xs[..k])
        invariant Measures(ds, shape[..k], dims)
      {
        ghost var before := dims;
        var d := DimensionFor(group, shape[k]);
        StillMeasures(ds, shape[..k], before, dims);
        MeasuresOneMore(ds, shape, k, d, dims);
        AddOneMore(Registered(old(dims)), xs, k);
        ds := ds + [d];
      }
      assert shape[..|shape|] == shape && xs[..|shape|] == xs;
    }

    /** One array of one to three dimensions. */
    method CreateVariable(group: Group, key: string, shape: seq<nat>)
      requires Valid()
      modifies this
      ensures Valid()
      ensures Wrote(old(variables), old(dims), variables, dims, [Site(group, key, shape)])
    {
      var ds := DimensionsFor(group, shape);
      StillFit(variables, old(dims), dims);
      WroteOne(variables, old(dims), Variable(Site(group, key, shape), ds), dims);
      variables := variables + [Variable(Site(group, key, shape), ds)];
    }

    /** One item of a dictionary; False when it raises. */
    method WriteValue(group: Group, key: string, value: Value) returns (ok: bool)
      requires Valid()
      modifies this
      ensures Valid()
      ensures ok == VisitValue(group, key, value).ok
      ensures Wrote(old(variables), old(dims), variables, dims, VisitValue(group, key, value).sites)
      decreases value, 1
    {
      WroteNothing(variables, dims);
      match value
      case Dict(inner) =>
        ok := CreateVariables(group + [key], inner);
      case Array(shape) =>
        if 1 <= |shape| <= 3 { CreateVariable(group, key, shape); }
        ok := |shape| > 0;
      case Attribute => ok := true;
      case Unsupported => ok := false;
    }

    /** create_variables: every item in turn, nested dictionaries as sub-groups. */
    method CreateVariables(group: Group, items: seq<Item>) returns (ok: bool)
      requires Valid()
      modifies this
      ensures Valid()
      ensures ok == VisitItems(group, items).ok
      ensures Wrote(old(variables), old(dims), variables, dims, VisitItems(group, items).sites)
      decreases items, 0
    {
      ghost var seen: seq<Site> := [];
      WroteNothing(variables, dims);
      for k := 0 to |items|
        invariant Valid() && VisitItems(group, items[..k]) == Visit(seen, true)
        invariant Wrote(old(variables), old(dims), variables, dims, seen)
      {
        ghost var here := VisitValue(group, items[k].key, items[k].value);
        ghost var vs, ds := variables, dims;
        ok := WriteValue(group, items[k].key, items[k].value);
        WroteThen(old(variables), old(dims), vs, ds, variables, dims, seen, here.sites);
        seen := seen + here.sites;
        VisitOneMore(group, items, k);
        if !ok { StopsAt(group, items, k); return; }
      }
      assert items[..|items|] == items;
      ok := true;
    }
  }

  lemma VisitOneMore(group: Group, items: seq<Item>, k: nat)
    requires k < |items| && VisitItems(group, items[..k]).ok
    ensures var here := VisitValue(group, items[k].key, items[k].value);
            VisitItems(group, items[..k + 1]) == Visit(VisitItems(group, items[..k]).sites + here.sites, here.ok)
  {
    assert items[..k + 1][..k] == items[..k];
  }

  /** A walk that fails at item k has visited the items before k and what item k let it see. */
  lemma {:induction false} StopsAt(group: Group, items: seq<Item>, k: nat)
    requires k < |items| && VisitItems(group, items[..k]).ok
    requires !VisitValue(group, items[k].key, items[k].value).ok
    ensures VisitItems(group, items)
         == Visit(VisitItems(group, items[..k]).sites + VisitValue(group, items[k].key, items[k].value).sites, false)
    decreases |items|
  {
    if k == |items| - 1 {
      assert items[..|items| - 1] == items[..k];
    } else {
      var front := items[..|items| - 1];
      assert front[..k] == items[..k];
      StopsAt(group, front, k);
    }
  }

  /** create_netcdf_file on a whole dictionary. */
  method CreateFile(items: seq<Item>) returns (ok: bool, reg: Registry)
    ensures ok == VisitItems([], items).ok
    ensures ok <==> AllWritable(items)
    ensures reg.Valid() && Sites(reg.variables) == VisitItems([], items).sites
    ensures ok ==> forall site :: (exists v :: v in reg.variables && v.site == site) <==> HoldsAmong(items, [], site)
    ensures |reg.names| == |reg.dims|
      && forall i :: 0 <= i < |reg.dims| ==> reg.dims[i].name == reg.names[i] == "dim" + LogOrder.Decimal(i + 1)
    ensures FirstVisits(Registered(reg.dims), Met(VisitItems([], items).sites))
    ensures forall i :: 0 <= i < |reg.variables| ==>
      (AllVisible(reg.variables[i]) <==> MetAbove(reg.variables[i].site, VisitItems([], items).sites))
  {
    reg := new Registry();
    ok := reg.CreateVariables([], items);
    ghost var sites := VisitItems([], items).sites;
    assert Registered([]) == [] && Sites([]) == [];
    assert Sites(reg.variables) == sites;
    VisitsAll([], items);
    forall site
      ensures (exists v :: v in reg.variables && v.site == site) <==> site in sites
    {
      SiteIn(reg.variables, site);
    }
    AddAllIsFirstVisits(Met(sites));
    forall i | 0 <= i < |reg.variables|
      ensures AllVisible(reg.variables[i]) <==> MetAbove(reg.variables[i].site, sites)
    {
      assert Fits(reg.variables[i], reg.dims);
      VisibleIff(reg.variables[i], reg.dims, sites);
    }
  }

  lemma SiteIn(vs: seq<Variable>, site: Site)
    ensures (exists v :: v in vs && v.site == site) <==> site in Sites(vs)
  {
    if v :| v in vs && v.site == site {
      var i :| 0 <= i < |vs| && vs[i] == v;
      assert Sites(vs)[i] == site;
    }
    if site in Sites(vs) {
      var i :| 0 <= i < |vs| && Sites(vs)[i] == site;
      assert vs[i] in vs && vs[i].site == site;
    }
  }

  // ---- Which dimensions a variable can see ----

  /** NetCDF's rule: a dimension is visible in the group it was created in and in the groups below. */
  predicate Visible(d: Dimension, group: Group) {
    d.group <= group
  }

  predicate AllVisible(v: Variable) {
    forall k :: 0 <= k < |v.dims| ==> Visible(v.dims[k], v.site.group)
  }

  /** The walk first meets this extent in the given group or one above it. */
  predicate FirstMetAbove(xs: seq<Extent>, size: nat, group: Group) {
    Has(xs, size) && xs[FirstIndex(xs, size)].group <= group
  }

  predicate MetAbove(site: Site, sites: seq<Site>) {
    forall k :: 0 <= k < |site.shape| ==> FirstMetAbove(Met(sites), site.shape[k], site.group)
  }

  /**
   The registry is one list for all groups, so a variable's dimensions are visible from its group
   exactly when the walk first met each of its extents in that group or a group above it.
   */
  lemma VisibleIff(v: Variable, dims: seq<Dimension>, sites: seq<Site>)
    requires Fits(v, dims) && FirstVisits(Registered(dims), Met(sites))
    ensures AllVisible(v) <==> MetAbove(v.site, sites)
  {
    forall k | 0 <= k < |v.dims|
      ensures Visible(v.dims[k], v.site.group) <==> FirstMetAbove(Met(sites), v.site.shape[k], v.site.group)
    {
      var i :| 0 <= i < |dims| && dims[i] == v.dims[k];
      assert Registered(dims)[i] == Extent(v.site.shape[k], v.dims[k].group);
    }
  }

  /** A dictionary in a dictionary, and after it an array of the same length: the array cannot see its dimension. */
  lemma LaterArrayCannotSeeDimension(n: nat)
    ensures var items := [Item("fes", Dict([Item("tide", Array([n]))])), Item("lats", Array([n]))];
            var sites := VisitItems([], items).sites;
            sites == [Site(["fes"], "tide", [n]), Site([], "lats", [n])] && !MetAbove(sites[1], sites)
  {
    var inner := [Item("tide", Array([n]))];
    var items := [Item("fes", Dict(inner)), Item("lats", Array([n]))];
    var a, b := Site(["fes"], "tide", [n]), Site([], "lats", [n]);
    VisitOne(["fes"], inner[0]);
    assert [] + ["fes"] == ["fes"];
    VisitOne([], items[0]);
    assert items[..1] == [items[0]];
    VisitOneMore([], items, 1);
    assert items[..2] == items && [a] + [b] == [a, b];
    MetAppend([a], [b]);
    MetOne(a);
    MetOne(b);
    var xs := Met([a, b]);
    assert xs == [Extent(n, ["fes"]), Extent(n, [])];
    assert xs[0].size == n && xs[..1][0].size == n;
    assert !FirstMetAbove(xs, b.shape[0], []);
  }

  lemma VisitOne(group: Group, item: Item)
    ensures VisitItems(group, [item]) == VisitValue(group, item.key, item.value)
  {
    var items := [item];
    assert items[..0] == [];
    var v := VisitValue(group, item.key, item.value);
    assert [] + v.sites == v.sites;
  }
}
