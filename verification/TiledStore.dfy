/**
 The tiled GeoTIFF-to-zarr copy, which writes each tile to a store and, upside down, to a
 flipped store; the void cleaning of the in-memory loader; and when the two ways of loading
 a raster make the two branches of interp_dem agree.
 */
module TiledStore {
  import opened Numbers
  import opened GridLookup

  /** A raster file: its cells, and the nodata mask that a masked read reports. */
  datatype Raster = Raster(cells: Grid, masked: seq<seq<bool>>, rows: nat, cols: nat) {
    ghost predicate Valid() {
      && rows > 0 && cols > 0
      && Rectangular(cells, rows, cols)
      && |masked| == rows && forall r :: 0 <= r < rows ==> |masked[r]| == cols
    }
  }

  /** One stored element, with the number of times it has been written since the store was made. */
  datatype Element = Element(value: Num, writes: nat)

  /** What the converter writes for a cell: with no void value the read is stored as it is. */
  function Cleaned(void: Option<real>, cell: Num, masked: bool): Num {
    if void.None? then cell
    else if masked || cell == Val(void.value) then NaN
    else cell
  }

  function CleanedGrid(void: Option<real>, src: Raster): (g: Grid)
    requires src.Valid()
    ensures Rectangular(g, src.rows, src.cols)
    ensures forall r, c :: 0 <= r < src.rows && 0 <= c < src.cols ==>
      g[r][c] == Cleaned(void, src.cells[r][c], src.masked[r][c])
  {
    seq(src.rows, r requires 0 <= r < src.rows =>
      seq(src.cols, c requires 0 <= c < src.cols => Cleaned(void, src.cells[r][c], src.masked[r][c])))
  }

  predicate InTile(i: int, j: int, h: int, w: int, r: int, c: int) {
    i <= r < i + h && j <= c < j + w
  }

  /** A numpy slice assignment: a[i : i + h, j : j + w] = data. */
  method WriteSlice(a: array2<Element>, i: nat, j: nat, h: nat, w: nat, data: Grid)
    requires i + h <= a.Length0 && j + w <= a.Length1 && Rectangular(data, h, w)
    modifies a
    ensures forall r, c :: 0 <= r < a.Length0 && 0 <= c < a.Length1 ==>
      a[r, c] == if InTile(i, j, h, w, r, c) then Element(data[r - i][c - j], old(a[r, c].writes) + 1) else old(a[r, c])
  {
    forall r, c | i <= r < i + h && j <= c < j + w {
      a[r, c] := Element(data[r - i][c - j], a[r, c].writes + 1);
    }
  }

  /** The windowed read of one tile, void cells cleaned. */
  function TileData(void: Option<real>, src: Raster, i: nat, j: nat, h: nat, w: nat): (d: Grid)
    requires src.Valid() && i + h <= src.rows && j + w <= src.cols
    ensures Rectangular(d, h, w)
    ensures forall k, m :: 0 <= k < h && 0 <= m < w ==> d[k][m] == CleanedGrid(void, src)[i + k][j + m]
  {
    seq(h, k requires 0 <= k < h =>
      seq(w, m requires 0 <= m < w => Cleaned(void, src.cells[i + k][j + m], src.masked[i + k][j + m])))
  }

  /** One tile: its data goes to the store as read and to the flipped store upside down. */
  method WriteTile(void: Option<real>, src: Raster, ghost g: Grid, i: nat, j: nat, h: nat, w: nat,
                   store: array2<Element>, flipped: array2<Element>)
    requires src.Valid() && store != flipped && g == CleanedGrid(void, src)
    requires store.Length0 == flipped.Length0 == src.rows && store.Length1 == flipped.Length1 == src.cols
    requires i + h <= src.rows && j + w <= src.cols
    modifies store, flipped
    ensures forall r, c :: 0 <= r < src.rows && 0 <= c < src.cols ==>
      store[r, c] == if InTile(i, j, h, w, r, c)
                     then Element(g[r][c], old(store[r, c].writes) + 1) else old(store[r, c])
    ensures forall r, c :: 0 <= r < src.rows && 0 <= c < src.cols ==>
      flipped[r, c] == if InTile(i, j, h, w, src.rows - 1 - r, c)
                       then Element(g[src.rows - 1 - r][c], old(flipped[r, c].writes) + 1)
                       else old(flipped[r, c])
  {
    var data := TileData(void, src, i, j, h, w);
    WriteSlice(store, i, j, h, w, data);
    WriteSlice(flipped, src.rows - i - h, j, h, w, Flip(data));
  }

  /** All tiles of the row band that starts at row i. */
  method WriteBand(void: Option<real>, src: Raster, ghost g: Grid, i: nat, h: nat, chunkCols: nat,
                   store: array2<Element>, flipped: array2<Element>)
    requires src.Valid() && store != flipped && chunkCols > 0 && g == CleanedGrid(void, src)
    requires store.Length0 == flipped.Length0 == src.rows && store.Length1 == flipped.Length1 == src.cols
    requires i + h <= src.rows
    modifies store, flipped
    ensures forall r, c :: 0 <= r < src.rows && 0 <= c < src.cols ==>
      store[r, c] == if i <= r < i + h
                     then Element(g[r][c], old(store[r, c].writes) + 1) else old(store[r, c])
    ensures forall r, c :: 0 <= r < src.rows && 0 <= c < src.cols ==>
      flipped[r, c] == if i <= src.rows - 1 - r < i + h
                       then Element(g[src.rows - 1 - r][c], old(flipped[r, c].writes) + 1)
                       else old(flipped[r, c])
  {
    var j := 0;
    while j < src.cols
      invariant forall r, c :: 0 <= r < src.rows && 0 <= c < src.cols ==>
        store[r, c] == if i <= r < i + h && c < j
                       then Element(g[r][c], old(store[r, c].writes) + 1) else old(store[r, c])
      invariant forall r, c :: 0 <= r < src.rows && 0 <= c < src.cols ==>
        flipped[r, c] == if i <= src.rows - 1 - r < i + h && c < j
                         then Element(g[src.rows - 1 - r][c], old(flipped[r, c].writes) + 1)
                         else old(flipped[r, c])
    {
      WriteTile(void, src, g, i, j, h, Min(chunkCols, src.cols - j), store, flipped);
      j := j + chunkCols;
    }
  }

  lemma SameGrid(g: Grid, g': Grid)
    requires |g| == |g'| && forall r :: 0 <= r < |g| ==> |g[r]| == |g'[r]|
    requires forall r, c :: 0 <= r < |g| && 0 <= c < |g[r]| ==> g[r][c] == g'[r][c]
    ensures g == g'
  {
    forall r | 0 <= r < |g|
      ensures g[r] == g'[r]
    {}
  }

  function GridOf(a: array2<Element>): (g: Grid)
    reads a
    ensures Rectangular(g, a.Length0, a.Length1)
    ensures forall r, c :: 0 <= r < a.Length0 && 0 <= c < a.Length1 ==> g[r][c] == a[r, c].value
  {
    seq(a.Length0, r requires 0 <= r < a.Length0 reads a =>
      seq(a.Length1, c requires 0 <= c < a.Length1 reads a => a[r, c].value))
  }

  /** Result of a conversion: the two stores. */
  datatype Stores = Stores(store: array2<Element>, flipped: array2<Element>)

  /** Every element written once, the store as the grid g and the flipped store as g upside down. */
  ghost predicate WrittenOnce(store: array2<Element>, flipped: array2<Element>, g: Grid)
    reads store, flipped
  {
    && store.Length0 == flipped.Length0 == |g| && store.Length1 == flipped.Length1
    && Rectangular(g, store.Length0, store.Length1)
    && (forall a, b :: 0 <= a < |g| && 0 <= b < store.Length1 ==> store[a, b] == Element(g[a][b], 1))
    && (forall a, b :: 0 <= a < |g| && 0 <= b < store.Length1 ==> flipped[a, b] == Element(g[|g| - 1 - a][b], 1))
  }

  /** The outer loop, over bands of rows. */
  method WriteBands(void: Option<real>, src: Raster, ghost g: Grid, chunkRows: nat, chunkCols: nat,
                    store: array2<Element>, flipped: array2<Element>)
    requires src.Valid() && store != flipped && chunkRows > 0 && chunkCols > 0 && g == CleanedGrid(void, src)
    requires store.Length0 == flipped.Length0 == src.rows && store.Length1 == flipped.Length1 == src.cols
    requires forall a, b :: 0 <= a < src.rows && 0 <= b < src.cols ==> store[a, b].writes == flipped[a, b].writes == 0
    modifies store, flipped
    ensures WrittenOnce(store, flipped, g)
  {
    var i := 0;
    while i < src.rows
      invariant forall a, b :: 0 <= a < src.rows && 0 <= b < src.cols ==>
        if a < i then store[a, b] == Element(g[a][b], 1) else store[a, b].writes == 0
      invariant forall a, b :: 0 <= a < src.rows && 0 <= b < src.cols ==>
        if src.rows - 1 - a < i then flipped[a, b] == Element(g[src.rows - 1 - a][b], 1) else flipped[a, b].writes == 0
    {
      WriteBand(void, src, g, i, Min(chunkRows, src.rows - i), chunkCols, store, flipped);
      i := i + chunkRows;
    }
  }

  /** Read back, the stores are the grid and its flip. */
  lemma ReadBack(store: array2<Element>, flipped: array2<Element>, g: Grid)
    requires WrittenOnce(store, flipped, g)
    ensures GridOf(store) == g && GridOf(flipped) == Flip(g)
  {
    SameGrid(GridOf(store), g);
    SameGrid(GridOf(flipped), Flip(g));
  }

  lemma ElementsAre(void: Option<real>, src: Raster, store: array2<Element>, flipped: array2<Element>)
    requires src.Valid() && WrittenOnce(store, flipped, CleanedGrid(void, src))
    ensures forall i, c :: 0 <= i < src.rows && 0 <= c < src.cols ==>
      var cell := src.cells[i][c];
      var v := if void.Some? && (src.masked[i][c] || cell == Val(void.value)) then NaN else cell;
      store[i, c] == Element(v, 1) && flipped[src.rows - 1 - i, c] == Element(v, 1)
  {
    var g := CleanedGrid(void, src);
    forall i, c | 0 <= i < src.rows && 0 <= c < src.cols
      ensures store[i, c] == Element(g[i][c], 1) && flipped[src.rows - 1 - i, c] == Element(g[i][c], 1)
    {
      var k := src.rows - 1 - i;
      assert flipped[k, c] == Element(g[|g| - 1 - k][c], 1);
    }
  }

  /**
   The tiled loop of convert_geotiff_to_zarr. A chunk size of zero makes range() raise; otherwise
   every element of both stores is written exactly once, the store holds the void-cleaned source
   and the flipped store holds it upside down.
   */
  method Convert(void: Option<real>, src: Raster, chunkRows: nat, chunkCols: nat) returns (r: Result<Stores>)
    requires src.Valid()
    ensures r.Err? <==> chunkRows == 0 || chunkCols == 0
    ensures r.Ok? ==>
      && fresh(r.value.store) && fresh(r.value.flipped)
      && WrittenOnce(r.value.store, r.value.flipped, CleanedGrid(void, src))
      && GridOf(r.value.store) == CleanedGrid(void, src)
      && GridOf(r.value.flipped) == Flip(GridOf(r.value.store))
      && forall i, c :: 0 <= i < src.rows && 0 <= c < src.cols ==>
           var cell := src.cells[i][c];
           var v := if void.Some? && (src.masked[i][c] || cell == Val(void.value)) then NaN else cell;
           r.value.store[i, c] == Element(v, 1) && r.value.flipped[src.rows - 1 - i, c] == Element(v, 1)
  {
    if chunkRows == 0 || chunkCols == 0 {
      return Err("Failed to convert GeoTIFF to Zarr");
    }
    var store := new Element[src.rows, src.cols]((_, _) => Element(Val(0.0), 0));
    var flipped := new Element[src.rows, src.cols]((_, _) => Element(Val(0.0), 0));
    WriteBands(void, src, CleanedGrid(void, src), chunkRows, chunkCols, store, flipped);
    ReadBack(store, flipped, CleanedGrid(void, src));
    ElementsAre(void, src, store, flipped);
    r := Ok(Stores(store, flipped));
  }

  // ---- The in-memory loader ----

  predicate IsVoid(void: real, g: Grid, r: int, c: int)
    requires 0 <= r < |g| && 0 <= c < |g[r]|
  {
    g[r][c] == Val(void)
  }

  /** A void cell whose row or column index is not zero: what np.any tests on the index arrays. */
  ghost predicate VoidOffCorner(void: real, g: Grid) {
    exists r, c :: 0 <= r < |g| && 0 <= c < |g[r]| && IsVoid(void, g, r, c) && (r != 0 || c != 0)
  }

  /** The grid load_geotiff ends with: cells equal to the void value become NaN, when it cleans at all. */
  ghost function LoadedGrid(void: Option<real>, g: Grid): (l: Grid)
    ensures |l| == |g|
    ensures forall r :: 0 <= r < |g| ==> |l[r]| == |g[r]|
    ensures forall r, c :: 0 <= r < |g| && 0 <= c < |g[r]| ==>
      l[r][c] == if void.Some? && void.value != 0.0 && VoidOffCorner(void.value, g) && IsVoid(void.value, g, r, c)
                 then NaN else g[r][c]
  {
    if void.Some? && void.value != 0.0 && VoidOffCorner(void.value, g) then
      seq(|g|, r requires 0 <= r < |g| =>
        seq(|g[r]|, c requires 0 <= c < |g[r]| => if IsVoid(void.value, g, r, c) then NaN else g[r][c]))
    else g
  }

  /** np.any on the index arrays of the void cells. */
  method AnyIndexNonZero(void: real, zdem: array2<Num>) returns (any: bool)
    ensures any <==> exists r, c ::
      0 <= r < zdem.Length0 && 0 <= c < zdem.Length1 && zdem[r, c] == Val(void) && (r != 0 || c != 0)
  {
    any := exists r, c ::
      0 <= r < zdem.Length0 && 0 <= c < zdem.Length1 && zdem[r, c] == Val(void) && (r != 0 || c != 0);
  }

  /**
   The void cleaning of load_geotiff, in place on the loaded array: it is done for a void value other
   than 0 and a void cell other than the first, and then turns every void cell to NaN.
   */
  method CleanLoaded(void: Option<real>, zdem: array2<Num>)
    modifies zdem
    ensures forall r, c :: 0 <= r < zdem.Length0 && 0 <= c < zdem.Length1 ==>
      (zdem[r, c] != old(zdem[r, c]) <==>
       && void.Some? && void.value != 0.0 && old(zdem[r, c]) == Val(void.value)
       && exists r', c' :: 0 <= r' < zdem.Length0 && 0 <= c' < zdem.Length1
                           && old(zdem[r', c']) == Val(void.value) && (r' != 0 || c' != 0))
    ensures forall r, c :: 0 <= r < zdem.Length0 && 0 <= c < zdem.Length1 ==>
      zdem[r, c] == old(zdem[r, c]) || zdem[r, c] == NaN
  {
    if void.Some? && void.value != 0.0 {
      var any := AnyIndexNonZero(void.value, zdem);
      if any {
        forall r, c | 0 <= r < zdem.Length0 && 0 <= c < zdem.Length1 && zdem[r, c] == Val(void.value) {
          zdem[r, c] := NaN;
        }
      }
    }
  }

  /** The same on a grid that the array holds: the result is LoadedGrid. */
  method CleanLoadedGrid(void: Option<real>, zdem: array2<Num>, ghost g: Grid)
    requires Rectangular(g, zdem.Length0, zdem.Length1)
    requires forall r, c :: 0 <= r < zdem.Length0 && 0 <= c < zdem.Length1 ==> zdem[r, c] == g[r][c]
    modifies zdem
    ensures forall r, c :: 0 <= r < zdem.Length0 && 0 <= c < zdem.Length1 ==> zdem[r, c] == LoadedGrid(void, g)[r][c]
  {
    CleanLoaded(void, zdem);
    if void.Some? {
      if VoidOffCorner(void.value, g) {
        ghost var r, c :| 0 <= r < |g| && 0 <= c < |g[r]| && IsVoid(void.value, g, r, c) && (r != 0 || c != 0);
        assert old(zdem[r, c]) == Val(void.value);
      }
      forall r, c | 0 <= r < zdem.Length0 && 0 <= c < zdem.Length1 && old(zdem[r, c]) == Val(void.value)
        ensures IsVoid(void.value, g, r, c)
      {}
    }
  }

  /**
   What a caller can check on the raster: the two loaders clean the same cells. Without a void value
   neither cleans any; with one, masked cells must be void or NaN and a void cell must set off cleaning.
   */
  ghost predicate SameVoids(void: Option<real>, src: Raster)
    requires src.Valid()
  {
    void.Some? ==>
      && (forall r, c :: 0 <= r < src.rows && 0 <= c < src.cols && src.masked[r][c] ==>
            src.cells[r][c].NaN? || IsVoid(void.value, src.cells, r, c))
      && ((exists r, c :: 0 <= r < src.rows && 0 <= c < src.cols && IsVoid(void.value, src.cells, r, c)) ==>
            void.value != 0.0 && VoidOffCorner(void.value, src.cells))
  }

  /** The grid held in memory is the converter's grid exactly when SameVoids holds. */
  lemma LoadersAgree(void: Option<real>, src: Raster)
    requires src.Valid()
    ensures LoadedGrid(void, src.cells) == CleanedGrid(void, src) <==> SameVoids(void, src)
  {
    var l, z := LoadedGrid(void, src.cells), CleanedGrid(void, src);
    if l == z && void.Some? {
      forall r, c | 0 <= r < src.rows && 0 <= c < src.cols && src.masked[r][c]
        ensures src.cells[r][c].NaN? || IsVoid(void.value, src.cells, r, c)
      {
        assert l[r][c] == z[r][c];
      }
      if r, c :| 0 <= r < src.rows && 0 <= c < src.cols && IsVoid(void.value, src.cells, r, c) {
        assert l[r][c] == z[r][c] == NaN;
      }
    }
    if SameVoids(void, src) {
      forall r, c | 0 <= r < src.rows && 0 <= c < src.cols
        ensures l[r][c] == z[r][c]
      {
        if void.Some? { assert src.cells[r][c] == Val(void.value) <==> IsVoid(void.value, src.cells, r, c); }
      }
      SameGrid(l, z);
    }
  }

  /** The failing family's smallest member: a raster whose only void cell is its first cell. */
  lemma CornerVoidIsKept()
    ensures var src := Raster([[Val(-9999.0), Val(1.0)]], [[false, false]], 1, 2);
            && src.Valid()
            && LoadedGrid(Some(-9999.0), src.cells)[0][0] == Val(-9999.0)
            && CleanedGrid(Some(-9999.0), src)[0][0] == NaN
  {
    var g := [[Val(-9999.0), Val(1.0)]];
    assert g[0][0] == Val(-9999.0) && g[0][1] == Val(1.0);
  }

  // ---- Both branches of interp_dem on one raster ----

  /** Every query, under every kernel, gets the same answer from the two branches. */
  ghost predicate BranchesAgree(rule: NodeRule, ydem: seq<real>, xdem: seq<real>, loaded: Grid, flippedStore: Grid)
    requires Ascending(Flip(ydem)) && Ascending(xdem)
    requires Rectangular(loaded, |ydem|, |xdem|) && Rectangular(flippedStore, |ydem|, |xdem|)
  {
    forall kernel: Kernel, y: Num, x: Num ::
      Interpolate(rule, kernel, Flip(ydem), xdem, Flip(loaded), y, x)
      == Interpolate(rule, kernel, Flip(ydem), xdem, flippedStore, y, x)
  }

  /** Composition: with the converter's stores, the branches agree exactly when SameVoids holds. */
  lemma BranchesAgreeIff(rule: NodeRule, ydem: seq<real>, xdem: seq<real>, void: Option<real>, src: Raster,
                         flippedStore: Grid)
    requires src.Valid() && Ascending(Flip(ydem)) && Ascending(xdem) && |ydem| == src.rows && |xdem| == src.cols
    requires flippedStore == Flip(CleanedGrid(void, src))
    ensures BranchesAgree(rule, ydem, xdem, LoadedGrid(void, src.cells), flippedStore) <==> SameVoids(void, src)
  {
    var l, z := LoadedGrid(void, src.cells), CleanedGrid(void, src);
    LoadersAgree(void, src);
    if BranchesAgree(rule, ydem, xdem, l, flippedStore) {
      forall r, c | 0 <= r < src.rows && 0 <= c < src.cols
        ensures l[r][c] == z[r][c]
      {
        NodeSeenByBothBranches(rule, ydem, xdem, l, z, r, c);
      }
      SameGrid(l, z);
    }
  }

  /** A nearest-method query on a node reads one cell of the grid, so agreement pins that cell down. */
  lemma NodeSeenByBothBranches(rule: NodeRule, ydem: seq<real>, xdem: seq<real>, l: Grid, z: Grid, r: nat, c: nat)
    requires Ascending(Flip(ydem)) && Ascending(xdem) && r < |ydem| && c < |xdem|
    requires Rectangular(l, |ydem|, |xdem|) && Rectangular(z, |ydem|, |xdem|)
    requires BranchesAgree(rule, ydem, xdem, l, Flip(z))
    ensures l[r][c] == z[r][c]
  {
    var k := |ydem| - 1 - r;
    NearestReturnsNode(rule, Flip(ydem), xdem, Flip(l), k, c);
    NearestReturnsNode(rule, Flip(ydem), xdem, Flip(z), k, c);
  }
}
