/**
 * The integer bookkeeping of the WRF reader: the cell shapes of the structured grids, the
 * classification of variables by their dimension names, the removal of `_stag` from
 * staggered dimensions, and the unstructured meshes of the periodic (global) mapping, where
 * a longitude seam and two pole caps are stitched to the structured grid.
 *
 * Nodes are stored vertical first, then south-north, then west-east. In the periodic case the
 * two pole nodes `nplanar` (south) and `nplanar + 1` (north) follow the `nplanar` nodes of
 * every horizontal layer.
 */
module Wrf {
  import opened Wrappers
  import opened Strings
  import opened Grid
  import Reader

  /* ---------------------------------------------------------------------------------------
   * Shapes
   * --------------------------------------------------------------------------------------- */

  /** `planar_shape`: cells along south-north and west-east. */
  function PlanarShape(nlat: nat, nlon: nat): Shape
    requires nlat >= 1 && nlon >= 1
  {
    [nlat - 1, nlon - 1]
  }

  /** `volumetric_shape`: cells along bottom-top, then the planar cell shape. */
  function VolumetricShape(nvert: nat, nlat: nat, nlon: nat): Shape
    requires nvert >= 1 && nlat >= 1 && nlon >= 1
  {
    [nvert - 1] + PlanarShape(nlat, nlon)
  }

  /**
   * The structured grids span exactly the nodes of the dataset: the node grid of the planar
   * cell shape is `(nlat, nlon)` with `nplanar` nodes and `(nlat-1)(nlon-1)` cells, and the
   * volumetric one adds the `nvert` layers.
   */
  lemma ShapesSpanNodes(nvert: nat, nlat: nat, nlon: nat)
    requires nvert >= 2 && nlat >= 2 && nlon >= 2
    ensures ValidCellShape(PlanarShape(nlat, nlon)) && ValidCellShape(VolumetricShape(nvert, nlat, nlon))
    ensures NodeShape(PlanarShape(nlat, nlon)) == [nlat, nlon]
    ensures Prod(NodeShape(PlanarShape(nlat, nlon))) == nlat * nlon
    ensures Prod(PlanarShape(nlat, nlon)) == (nlat - 1) * (nlon - 1)
    ensures NodeShape(VolumetricShape(nvert, nlat, nlon)) == [nvert, nlat, nlon]
    ensures Prod(NodeShape(VolumetricShape(nvert, nlat, nlon))) == nvert * nlat * nlon
    ensures Prod(VolumetricShape(nvert, nlat, nlon)) == (nvert - 1) * (nlat - 1) * (nlon - 1)
  {
    assert NodeShape(PlanarShape(nlat, nlon)) == [nlat, nlon];
    assert VolumetricShape(nvert, nlat, nlon) == [nvert - 1, nlat - 1, nlon - 1];
    assert NodeShape(VolumetricShape(nvert, nlat, nlon)) == [nvert, nlat, nlon];
    Prod2(nlat, nlon);
    Prod2(nlat - 1, nlon - 1);
    Prod3(nvert, nlat, nlon);
    Prod3(nvert - 1, nlat - 1, nlon - 1);
  }

  /* ---------------------------------------------------------------------------------------
   * Variables and their dimensions
   * --------------------------------------------------------------------------------------- */

  datatype VarType = Planar | Volumetric

  datatype WrfError =
    | NoDimensions         // `time, *dimensions = ...` on a variable without dimensions
    | NotTimeDependent     // `assert time == 'Time'` fails

  /**
   * `variable_type`: a variable over time, south-north and west-east is planar, one over time,
   * bottom-top, south-north and west-east is volumetric (each spatial name matched as a
   * prefix, so staggered names count), and anything else is neither.
   */
  function VariableType(dims: seq<string>): Result<Option<VarType>, WrfError> {
    if |dims| == 0 then Err(NoDimensions)
    else if dims[0] != "Time" then Ok(None)
    else
      var d := dims[1..];
      if |d| == 2 && StartsWith(d[0], "south_north") && StartsWith(d[1], "west_east") then Ok(Some(Planar))
      else if |d| == 3 && StartsWith(d[0], "bottom_top") && StartsWith(d[1], "south_north")
              && StartsWith(d[2], "west_east") then Ok(Some(Volumetric))
      else Ok(None)
  }

  /** The classification, case by case in both directions. */
  lemma VariableTypeExactly(dims: seq<string>)
    ensures VariableType(dims).Err? <==> |dims| == 0
    ensures VariableType(dims) == Ok(Some(Planar)) <==>
      |dims| == 3 && dims[0] == "Time" && StartsWith(dims[1], "south_north") && StartsWith(dims[2], "west_east")
    ensures VariableType(dims) == Ok(Some(Volumetric)) <==>
      |dims| == 4 && dims[0] == "Time" && StartsWith(dims[1], "bottom_top")
      && StartsWith(dims[2], "south_north") && StartsWith(dims[3], "west_east")
    ensures |dims| > 0 && dims[0] != "Time" ==> VariableType(dims) == Ok(None)
  {
  }

  /** A dimension name with a trailing `_stag` removed. */
  function Unstaggered(dim: string): (r: string)
    ensures EndsWith(dim, "_stag") ==> dim == r + "_stag"
    ensures !EndsWith(dim, "_stag") ==> r == dim
  {
    if EndsWith(dim, "_stag") then dim[..|dim| - 5] else dim
  }

  /** Removing `_stag` undoes appending it. */
  lemma UnstaggeredRoundTrip(dim: string)
    ensures Unstaggered(dim + "_stag") == dim
  {
    var s := dim + "_stag";
    assert s[|s| - 5..] == "_stag";
    assert s[..|s| - 5] == dim;
  }

  /** The spatial dimensions `variable_at` works with: in planar mode a volumetric variable loses bottom-top. */
  function SpatialDims(dims: seq<string>, planarMode: bool): seq<string> {
    if |dims| == 3 && planarMode then dims[1..] else dims
  }

  /** The dimension names after un-staggering, and the axes that were un-staggered, in order. */
  datatype Axes = Axes(names: seq<string>, staggered: seq<nat>)

  /** The names and staggered axes `Axes` records for spatial dimensions `d`. */
  ghost predicate AxesOf(d: seq<string>, ax: Axes) {
    && |ax.names| == |d|
    && (forall i :: 0 <= i < |d| ==> ax.names[i] == Unstaggered(d[i]))
    && (forall k :: k in ax.staggered <==> 0 <= k < |d| && EndsWith(d[k], "_stag"))
    && (forall p, q :: 0 <= p < q < |ax.staggered| ==> ax.staggered[p] < ax.staggered[q])
  }

  /** Every dimension name with `_stag` removed. */
  function UnstaggeredNames(d: seq<string>): (r: seq<string>)
    ensures |r| == |d| && forall i :: 0 <= i < |d| ==> r[i] == Unstaggered(d[i])
  {
    seq(|d|, i requires 0 <= i < |d| => Unstaggered(d[i]))
  }

  /** The staggered axes among the first `n` dimensions, in increasing order. */
  function StaggeredAxes(d: seq<string>, n: nat): seq<nat>
    requires n <= |d|
  {
    if n == 0 then []
    else StaggeredAxes(d, n - 1) + (if EndsWith(d[n - 1], "_stag") then [n - 1] else [])
  }

  /** `StaggeredAxes` lists exactly the staggered axes below `n`. */
  lemma {:induction false} StaggeredAxesExactly(d: seq<string>, n: nat)
    requires n <= |d|
    ensures forall k :: k in StaggeredAxes(d, n) <==> 0 <= k < n && EndsWith(d[k], "_stag")
  {
    if n > 0 {
      StaggeredAxesExactly(d, n - 1);
      var prev := StaggeredAxes(d, n - 1);
      var last := if EndsWith(d[n - 1], "_stag") then [n - 1] else [];
      assert StaggeredAxes(d, n) == prev + last;
      forall k ensures k in prev + last <==> 0 <= k < n && EndsWith(d[k], "_stag") {
        assert k in prev + last <==> k in prev || k in last;
      }
    }
  }

  /** `StaggeredAxes` lists the staggered axes in increasing order, each below `n`. */
  lemma {:induction false} StaggeredAxesIncreasing(d: seq<string>, n: nat)
    requires n <= |d|
    ensures forall p :: 0 <= p < |StaggeredAxes(d, n)| ==> StaggeredAxes(d, n)[p] < n
    ensures forall p, q :: 0 <= p < q < |StaggeredAxes(d, n)| ==> StaggeredAxes(d, n)[p] < StaggeredAxes(d, n)[q]
  {
    if n > 0 {
      StaggeredAxesIncreasing(d, n - 1);
      var prev := StaggeredAxes(d, n - 1);
      var last := if EndsWith(d[n - 1], "_stag") then [n - 1] else [];
      assert StaggeredAxes(d, n) == prev + last;
    }
  }

  /** The loop of `variable_at` over the spatial axes, removing `_stag` and recording each such axis. */
  method UnstaggerAxes(d: seq<string>) returns (ax: Axes)
    ensures ax == Axes(UnstaggeredNames(d), StaggeredAxes(d, |d|))
  {
    var dimensions := d;
    var staggered: seq<nat> := [];
    for i := 0 to |d|
      invariant |dimensions| == |d|
      invariant forall k :: 0 <= k < i ==> dimensions[k] == Unstaggered(d[k])
      invariant forall k :: i <= k < |d| ==> dimensions[k] == d[k]
      invariant staggered == StaggeredAxes(d, i)
    {
      var dim := dimensions[i];
      if EndsWith(dim, "_stag") {
        staggered := staggered + [i];
        dimensions := dimensions[i := Unstaggered(dim)];
      }
    }
    ax := Axes(dimensions, staggered);
  }

  /**
   * The dimension handling of `variable_at`: split off time (which must be `Time`), drop
   * bottom-top of a volumetric variable in planar mode, then walk the axes and remove
   * `_stag` from each staggered one, recording the axis un-staggered.
   */
  method VariableAxes(dims: seq<string>, planarMode: bool) returns (r: Result<Axes, WrfError>)
    ensures |dims| == 0 ==> r == Err(NoDimensions)
    ensures |dims| > 0 && dims[0] != "Time" ==> r == Err(NotTimeDependent)
    ensures |dims| > 0 && dims[0] == "Time" ==> r.Ok? && AxesOf(SpatialDims(dims[1..], planarMode), r.value)
  {
    if |dims| == 0 {
      return Err(NoDimensions);
    }
    var time, dimensions := dims[0], dims[1..];
    if time != "Time" {
      return Err(NotTimeDependent);
    }
    if |dimensions| == 3 && planarMode {
      dimensions := dimensions[1..];
    }
    var ax := UnstaggerAxes(dimensions);
    StaggeredAxesExactly(dimensions, |dimensions|);
    StaggeredAxesIncreasing(dimensions, |dimensions|);
    r := Ok(ax);
  }

  /* ---------------------------------------------------------------------------------------
   * Node maps of the periodic meshes
   * --------------------------------------------------------------------------------------- */

  /** `nodemap[row] = nodemap[row, 0]` on a two-axis node map: the whole row takes its first value. */
  function CollapseRow(nm: NodeMap, row: nat): NodeMap {
    idx => if |idx| == 2 && idx[0] == row then nm([row, 0]) else nm(idx)
  }

  /**
   * `nodemap[:, row] = (nodemap[:, row] - pole) // nh * nh + pole` on a three-axis node map:
   * on that row every entry becomes the pole slot of its layer (floor division).
   */
  function SnapToPole(nm: NodeMap, row: nat, pole: int, nh: nat): NodeMap
    requires nh > 0
  {
    idx => if |idx| == 3 && idx[1] == row then (nm(idx) - pole) / nh * nh + pole else nm(idx)
  }

  /** Index `j + 1` around a parallel of `nlon` nodes. */
  function NextLon(j: nat, nlon: nat): nat
    requires nlon > 0
  {
    (j + 1) % nlon
  }

  lemma WrapIsNextLon(j: nat, nlon: nat)
    requires j < nlon
    ensures Wrap(j + 1, nlon + 1, true) == NextLon(j, nlon) && NextLon(j, nlon) < nlon
  {
    if j + 1 < nlon {
      DivModOf(0, j + 1, nlon);
    }
  }

  /* ---------------------------------------------------------------------------------------
   * The periodic planar mesh
   * --------------------------------------------------------------------------------------- */

  /** Planar seam node map `nodemap((nlat, 2), (nlon, nlon - 1))`: columns 0 and `nlon - 1` of each row. */
  function PlanarSeamMap(nlat: nat, nlon: nat): NodeMap
    requires nlon >= 1
  {
    StridedMap([nlat, 2], [nlon, nlon - 1], {}, 0)
  }

  /** South cap node map: row 0 the southernmost parallel (periodic), row 1 collapsed onto the pole `nplanar`. */
  function SouthCapMap(nlat: nat, nlon: nat): NodeMap {
    CollapseRow(StridedMap([2, nlon + 1], [nlat * nlon, 1], {1}, 0), 1)
  }

  /** North cap node map: row 0 collapsed onto the pole `nplanar + 1`, row 1 the northernmost parallel. */
  function NorthCapMap(nlat: nat, nlon: nat): NodeMap {
    CollapseRow(StridedMap([2, nlon + 1], [-(nlon as int) - 1, 1], {1}, nlat * nlon + 1), 0)
  }

  lemma PlanarSeamMapAt(nlat: nat, nlon: nat, a: nat, b: nat)
    requires nlon >= 1 && a < nlat && b < 2
    ensures PlanarSeamMap(nlat, nlon)([a, b]) == a * nlon + b * (nlon - 1)
    ensures 0 <= PlanarSeamMap(nlat, nlon)([a, b]) < nlat * nlon
  {
    StridedMap2(nlat, 2, nlon, nlon - 1, {}, 0, a, b);
    MulMono(a, nlat - 1, nlon);
    assert (nlat - 1) * nlon == nlat * nlon - nlon;
  }

  lemma SouthCapMapAt(nlat: nat, nlon: nat, a: nat, b: nat)
    requires nlat >= 1 && nlon >= 1 && a < 2 && b <= nlon
    ensures SouthCapMap(nlat, nlon)([a, b]) == if a == 1 then nlat * nlon else Wrap(b, nlon + 1, true)
    ensures 0 <= SouthCapMap(nlat, nlon)([a, b]) < nlat * nlon + 2
  {
    StridedMap2(2, nlon + 1, nlat * nlon, 1, {1}, 0, a, b);
    StridedMap2(2, nlon + 1, nlat * nlon, 1, {1}, 0, 1, 0);
    MulMono(1, nlat, nlon);
  }

  lemma NorthCapMapAt(nlat: nat, nlon: nat, a: nat, b: nat)
    requires nlat >= 1 && nlon >= 1 && a < 2 && b <= nlon
    ensures NorthCapMap(nlat, nlon)([a, b])
         == if a == 0 then nlat * nlon + 1 else (nlat - 1) * nlon + Wrap(b, nlon + 1, true)
    ensures 0 <= NorthCapMap(nlat, nlon)([a, b]) < nlat * nlon + 2
  {
    StridedMap2(2, nlon + 1, -(nlon as int) - 1, 1, {1}, nlat * nlon + 1, a, b);
    StridedMap2(2, nlon + 1, -(nlon as int) - 1, 1, {1}, nlat * nlon + 1, 0, 0);
    assert (nlat - 1) * nlon == nlat * nlon - nlon;
  }

  /** Interior cell (i, j): the counter-clockwise quadrilateral of row-major node numbers. */
  function PlanarQuad(nlon: nat, i: nat, j: nat): Cell {
    [i * nlon + j, (i + 1) * nlon + j, (i + 1) * nlon + j + 1, i * nlon + j + 1]
  }

  /** Seam cell i: the west node and the east node of rows i and i + 1. */
  function SeamQuad(nlon: nat, i: nat): Cell {
    [i * nlon, (i + 1) * nlon, (i + 1) * nlon + nlon - 1, i * nlon + nlon - 1]
  }

  /** South cap cell j: nodes j and j + 1 of the southernmost parallel and the south pole twice. */
  function SouthQuad(nlat: nat, nlon: nat, j: nat): Cell
    requires nlon > 0
  {
    [j, nlat * nlon, nlat * nlon, NextLon(j, nlon)]
  }

  /** North cap cell j: the north pole twice and nodes j and j + 1 of the northernmost parallel. */
  function NorthQuad(nlat: nat, nlon: nat, j: nat): Cell
    requires nlat > 0 && nlon > 0
  {
    [nlat * nlon + 1, (nlat - 1) * nlon + j, (nlat - 1) * nlon + NextLon(j, nlon), nlat * nlon + 1]
  }

  /** Position of interior cell (i, j): row-major over `nlon - 1` cells per row. */
  function QuadPos(nlon: nat, i: nat, j: nat): nat
    requires nlon >= 1
  {
    i * (nlon - 1) + j
  }

  /** The seam block `structured_cells((nlat - 1, 1), 2, nodemap)`. */
  function PlanarSeam(nlat: nat, nlon: nat): seq<Cell>
    requires nlat >= 2 && nlon >= 1
  {
    StructuredCells([nlat - 1, 1], PlanarSeamMap(nlat, nlon))
  }

  /** The south cap block `structured_cells((1, nlon), 2, nodemap)`. */
  function SouthCap(nlat: nat, nlon: nat): seq<Cell>
    requires nlon >= 1
  {
    StructuredCells([1, nlon], SouthCapMap(nlat, nlon))
  }

  /** The north cap block `structured_cells((1, nlon), 2, nodemap)`. */
  function NorthCap(nlat: nat, nlon: nat): seq<Cell>
    requires nlon >= 1
  {
    StructuredCells([1, nlon], NorthCapMap(nlat, nlon))
  }

  lemma PlanarInteriorCell(nlat: nat, nlon: nat, i: nat, j: nat)
    requires nlat >= 2 && nlon >= 2 && i < nlat - 1 && j < nlon - 1
    ensures QuadPos(nlon, i, j) < |Cells(PlanarShape(nlat, nlon))|
    ensures Cells(PlanarShape(nlat, nlon))[QuadPos(nlon, i, j)] == PlanarQuad(nlon, i, j)
  {
    assert Reader.CellShape([nlat, nlon]) == PlanarShape(nlat, nlon);
    Reader.ElementQuad(nlat, nlon, i, j);
  }

  lemma PlanarInteriorBlock(nlat: nat, nlon: nat)
    requires nlat >= 2 && nlon >= 2
    ensures |Cells(PlanarShape(nlat, nlon))| == (nlat - 1) * (nlon - 1)
    ensures AllWidth(Cells(PlanarShape(nlat, nlon)), 4)
    ensures AllWithin(Cells(PlanarShape(nlat, nlon)), 0, nlat * nlon)
  {
    ShapesSpanNodes(2, nlat, nlon);
    CellsBounded(PlanarShape(nlat, nlon));
  }

  lemma PlanarInteriorCells(nlat: nat, nlon: nat)
    requires nlat >= 2 && nlon >= 2
    ensures forall i: nat, j: nat :: i < nlat - 1 && j < nlon - 1 ==>
      QuadPos(nlon, i, j) < |Cells(PlanarShape(nlat, nlon))| &&
      Cells(PlanarShape(nlat, nlon))[QuadPos(nlon, i, j)] == PlanarQuad(nlon, i, j)
  {
    forall i: nat, j: nat | i < nlat - 1 && j < nlon - 1
      ensures QuadPos(nlon, i, j) < |Cells(PlanarShape(nlat, nlon))|
      ensures Cells(PlanarShape(nlat, nlon))[QuadPos(nlon, i, j)] == PlanarQuad(nlon, i, j)
    {
      PlanarInteriorCell(nlat, nlon, i, j);
    }

  }

  lemma SeamCorner(nlat: nat, nlon: nat, i: nat, c: nat)
    requires nlat >= 2 && nlon >= 2 && i < nlat - 1 && c < 4
    ensures i < |PlanarSeam(nlat, nlon)| && PlanarSeam(nlat, nlon)[i][c] == SeamQuad(nlon, i)[c]
  {
    CellAt2([nlat - 1, 1], PlanarSeamMap(nlat, nlon), i, 0, c);
    var off := Offset(2, c);
    PlanarSeamMapAt(nlat, nlon, i + off[0], off[1]);
  }

  lemma PlanarSeamBlock(nlat: nat, nlon: nat)
    requires nlat >= 2 && nlon >= 2
    ensures |PlanarSeam(nlat, nlon)| == nlat - 1
    ensures forall i :: 0 <= i < nlat - 1 ==> PlanarSeam(nlat, nlon)[i] == SeamQuad(nlon, i)
    ensures AllWidth(PlanarSeam(nlat, nlon), 4)
    ensures AllWithin(PlanarSeam(nlat, nlon), 0, nlat * nlon)
  {
    var cs, nm := [nlat - 1, 1], PlanarSeamMap(nlat, nlon);
    Prod2(nlat - 1, 1);
    forall i | 0 <= i < nlat - 1
      ensures PlanarSeam(nlat, nlon)[i] == SeamQuad(nlon, i)
    {
      SeamCorner(nlat, nlon, i, 0);
      SeamCorner(nlat, nlon, i, 1);
      SeamCorner(nlat, nlon, i, 2);
      SeamCorner(nlat, nlon, i, 3);
    }
    forall idx | Within(idx, NodeShape(cs))
      ensures 0 <= nm(idx) < nlat * nlon
    {
      assert idx == [idx[0], idx[1]];
      PlanarSeamMapAt(nlat, nlon, idx[0], idx[1]);
    }
    StructuredCellsBounded(cs, nm, 0, nlat * nlon);
  }

  lemma SouthCorner(nlat: nat, nlon: nat, j: nat, c: nat)
    requires nlat >= 2 && nlon >= 2 && j < nlon && c < 4
    ensures j < |SouthCap(nlat, nlon)| && SouthCap(nlat, nlon)[j][c] == SouthQuad(nlat, nlon, j)[c]
  {
    CellAt2([1, nlon], SouthCapMap(nlat, nlon), 0, j, c);
    var off := Offset(2, c);
    SouthCapMapAt(nlat, nlon, off[0], j + off[1]);
    WrapIsNextLon(j, nlon);
  }

  lemma SouthCapBlock(nlat: nat, nlon: nat)
    requires nlat >= 2 && nlon >= 2
    ensures |SouthCap(nlat, nlon)| == nlon
    ensures forall j :: 0 <= j < nlon ==> SouthCap(nlat, nlon)[j] == SouthQuad(nlat, nlon, j)
    ensures AllWidth(SouthCap(nlat, nlon), 4)
    ensures AllWithin(SouthCap(nlat, nlon), 0, nlat * nlon + 2)
  {
    var cs, nm := [1, nlon], SouthCapMap(nlat, nlon);
    Prod2(1, nlon);
    forall j | 0 <= j < nlon
      ensures SouthCap(nlat, nlon)[j] == SouthQuad(nlat, nlon, j)
    {
      SouthCorner(nlat, nlon, j, 0);
      SouthCorner(nlat, nlon, j, 1);
      SouthCorner(nlat, nlon, j, 2);
      SouthCorner(nlat, nlon, j, 3);
    }
    forall idx | Within(idx, NodeShape(cs))
      ensures 0 <= nm(idx) < nlat * nlon + 2
    {
      assert idx == [idx[0], idx[1]];
      SouthCapMapAt(nlat, nlon, idx[0], idx[1]);
    }
    StructuredCellsBounded(cs, nm, 0, nlat * nlon + 2);
  }

  lemma NorthCorner(nlat: nat, nlon: nat, j: nat, c: nat)
    requires nlat >= 2 && nlon >= 2 && j < nlon && c < 4
    ensures j < |NorthCap(nlat, nlon)| && NorthCap(nlat, nlon)[j][c] == NorthQuad(nlat, nlon, j)[c]
  {
    var nm := NorthCapMap(nlat, nlon);
    CellAt2([1, nlon], nm, 0, j, c);
    var off := Offset(2, c);
    assert NorthCap(nlat, nlon)[j][c] == nm([off[0], j + off[1]]);
    NorthCapMapAt(nlat, nlon, off[0], j + off[1]);
    WrapIsNextLon(j, nlon);
    var q := NorthQuad(nlat, nlon, j);
    if c == 0 {
      assert off == [0, 0] && q[c] == nlat * nlon + 1;
    } else if c == 1 {
      assert off == [1, 0] && q[c] == (nlat - 1) * nlon + j;
    } else if c == 2 {
      assert off == [1, 1] && q[c] == (nlat - 1) * nlon + NextLon(j, nlon);
    } else {
      assert off == [0, 1] && q[c] == nlat * nlon + 1;
    }
  }

  lemma NorthCapBlock(nlat: nat, nlon: nat)
    requires nlat >= 2 && nlon >= 2
    ensures |NorthCap(nlat, nlon)| == nlon
    ensures forall j :: 0 <= j < nlon ==> NorthCap(nlat, nlon)[j] == NorthQuad(nlat, nlon, j)
    ensures AllWidth(NorthCap(nlat, nlon), 4)
    ensures AllWithin(NorthCap(nlat, nlon), 0, nlat * nlon + 2)
  {
    var cs, nm := [1, nlon], NorthCapMap(nlat, nlon);
    Prod2(1, nlon);
    forall j | 0 <= j < nlon
      ensures NorthCap(nlat, nlon)[j] == NorthQuad(nlat, nlon, j)
    {
      NorthCorner(nlat, nlon, j, 0);
      NorthCorner(nlat, nlon, j, 1);
      NorthCorner(nlat, nlon, j, 2);
      NorthCorner(nlat, nlon, j, 3);
    }
    forall idx | Within(idx, NodeShape(cs))
      ensures 0 <= nm(idx) < nlat * nlon + 2
    {
      assert idx == [idx[0], idx[1]];
      NorthCapMapAt(nlat, nlon, idx[0], idx[1]);
    }
    StructuredCellsBounded(cs, nm, 0, nlat * nlon + 2);
  }

  /** `structured_cells(planar_shape, 2)`: the structured quadrilaterals, row-major, all on the grid nodes. */
  method PlanarInterior(nlat: nat, nlon: nat) returns (b: seq<Cell>)
    requires nlat >= 2 && nlon >= 2
    ensures |b| == (nlat - 1) * (nlon - 1) && AllWidth(b, 4) && AllWithin(b, 0, nlat * nlon)
    ensures forall i: nat, j: nat :: i < nlat - 1 && j < nlon - 1 ==>
      QuadPos(nlon, i, j) < |b| && b[QuadPos(nlon, i, j)] == PlanarQuad(nlon, i, j)
  {
    b := Cells(PlanarShape(nlat, nlon));
    assert |b| == (nlat - 1) * (nlon - 1) && AllWidth(b, 4) && AllWithin(b, 0, nlat * nlon) by {
      PlanarInteriorBlock(nlat, nlon);
    }
    PlanarInteriorCells(nlat, nlon);
  }

  /** The seam block: cell i joins the east and west nodes of rows i and i + 1. */
  method PlanarSeamCells(nlat: nat, nlon: nat) returns (b: seq<Cell>)
    requires nlat >= 2 && nlon >= 2
    ensures |b| == nlat - 1 && AllWidth(b, 4) && AllWithin(b, 0, nlat * nlon)
    ensures forall i :: 0 <= i < |b| ==> b[i] == SeamQuad(nlon, i)
  {
    var nodemap := PlanarSeamMap(nlat, nlon);
    b := StructuredCells([nlat - 1, 1], nodemap);
    PlanarSeamBlock(nlat, nlon);
  }

  /** The south cap block: cell j joins nodes j and j + 1 of the southernmost parallel to the south pole. */
  method SouthCapCells(nlat: nat, nlon: nat) returns (b: seq<Cell>)
    requires nlat >= 2 && nlon >= 2
    ensures |b| == nlon && AllWidth(b, 4) && AllWithin(b, 0, nlat * nlon + 2)
    ensures forall j :: 0 <= j < |b| ==> b[j] == SouthQuad(nlat, nlon, j)
  {
    var nodemap := SouthCapMap(nlat, nlon);
    b := StructuredCells([1, nlon], nodemap);
    SouthCapBlock(nlat, nlon);
  }

  /** The north cap block: cell j joins the north pole to nodes j and j + 1 of the northernmost parallel. */
  method NorthCapCells(nlat: nat, nlon: nat) returns (b: seq<Cell>)
    requires nlat >= 2 && nlon >= 2
    ensures |b| == nlon && AllWidth(b, 4) && AllWithin(b, 0, nlat * nlon + 2)
    ensures forall j :: 0 <= j < |b| ==> b[j] == NorthQuad(nlat, nlon, j)
  {
    var nodemap := NorthCapMap(nlat, nlon);
    b := StructuredCells([1, nlon], nodemap);
    NorthCapBlock(nlat, nlon);
  }

  /** The number of structured cells of the planar grid. */
  function QuadCount(nlat: nat, nlon: nat): nat
    requires nlat >= 1 && nlon >= 1
  {
    (nlat - 1) * (nlon - 1)
  }

  /**
   * `periodic_planar_mesh`: the structured quadrilaterals, then one seam cell per row joining
   * the east column to the west one, then a ring of cells from the southernmost parallel to
   * the south pole `nplanar`, then one from the north pole `nplanar + 1` to the northernmost
   * parallel. Every node number is below `nplanar + 2`, the node count with the poles.
   */
  method PeriodicPlanarMesh(nlat: nat, nlon: nat) returns (cells: seq<Cell>)
    requires nlat >= 2 && nlon >= 2
    ensures |cells| == QuadCount(nlat, nlon) + (nlat - 1) + nlon + nlon
    ensures AllWidth(cells, 4) && AllWithin(cells, 0, nlat * nlon + 2)
    ensures forall i: nat, j: nat :: i < nlat - 1 && j < nlon - 1 ==>
      QuadPos(nlon, i, j) < |cells| && cells[QuadPos(nlon, i, j)] == PlanarQuad(nlon, i, j)
    ensures var seam := QuadCount(nlat, nlon);
      forall e :: seam <= e < seam + (nlat - 1) ==> cells[e] == SeamQuad(nlon, e - seam)
    ensures var south := QuadCount(nlat, nlon) + (nlat - 1);
      forall e :: south <= e < south + nlon ==> cells[e] == SouthQuad(nlat, nlon, e - south)
    ensures var north := QuadCount(nlat, nlon) + (nlat - 1) + nlon;
      forall e :: north <= e < north + nlon ==> cells[e] == NorthQuad(nlat, nlon, e - north)
  {
    var interior := PlanarInterior(nlat, nlon);
    var seam := PlanarSeamCells(nlat, nlon);
    var south := SouthCapCells(nlat, nlon);
    var north := NorthCapCells(nlat, nlon);
    cells := interior;
    cells := cells + seam;
    cells := cells + south;
    cells := cells + north;

    ghost var n0 := QuadCount(nlat, nlon);
    ghost var n1, n2 := n0 + (nlat - 1), n0 + (nlat - 1) + nlon;
    forall e | n0 <= e < n1
      ensures cells[e] == SeamQuad(nlon, e - n0)
    {
      assert cells[e] == seam[e - n0];
    }
    forall e | n1 <= e < n2
      ensures cells[e] == SouthQuad(nlat, nlon, e - n1)
    {
      assert cells[e] == south[e - n1];
    }
    forall e | n2 <= e < n2 + nlon
      ensures cells[e] == NorthQuad(nlat, nlon, e - n2)
    {
      assert cells[e] == north[e - n2];
    }
    AllWidthConcat(interior, seam, 4);
    ghost var hi := nlat * nlon + 2;
    AllWithinConcat(interior, seam, 0, hi);
    AllWidthConcat(interior + seam, south, 4);
    AllWithinConcat(interior + seam, south, 0, hi);
    AllWidthConcat(interior + seam + south, north, 4);
    AllWithinConcat(interior + seam + south, north, 0, hi);
  }

  /* ---------------------------------------------------------------------------------------
   * The periodic volumetric mesh
   * --------------------------------------------------------------------------------------- */

  /** `nhorizontal`: nodes per layer once the two poles are appended. */
  function Nh(nlat: nat, nlon: nat): nat {
    nlat * nlon + 2
  }

  /** Node `(i, j)` of layer `l` in the numbering with poles: `l * nh + i * nlon + j`. */
  function VolNode(nh: nat, nlon: nat, l: nat, i: nat, j: nat): int {
    l * nh + i * nlon + j
  }

  /** `v + v // nplanar * 2`: the shift that makes room for two pole nodes after every layer. */
  function LayerShift(v: int, nplanar: nat): int
    requires nplanar > 0
  {
    v + v / nplanar * 2
  }

  /** Node `r` of layer `l` (number `l * nplanar + r`) moves to `l * (nplanar + 2) + r`. */
  lemma LayerShiftOfNode(nplanar: nat, l: nat, r: nat)
    requires r < nplanar
    ensures LayerShift(l * nplanar + r, nplanar) == l * (nplanar + 2) + r
  {
    DivModOf(l, r, nplanar);
  }

  /**
   * Every node number of the unshifted volumetric grid moves into the range of its layer
   * with poles, and never onto one of the two pole slots of a layer.
   */
  lemma LayerShiftBound(nplanar: nat, nv: nat, v: int)
    requires nplanar > 0 && 0 <= v < nv * nplanar
    ensures 0 <= LayerShift(v, nplanar) < nv * (nplanar + 2)
    ensures LayerShift(v, nplanar) % (nplanar + 2) < nplanar
  {
    var q, r := v / nplanar, v % nplanar;
    assert v == q * nplanar + r;
    DivBelow(v, nv, nplanar);
    LayerShiftOfNode(nplanar, q, r);
    RowBound(q, nv, r, nplanar + 2);
    DivModOf(q, r, nplanar + 2);
  }

  function ShiftLayers(cells: seq<Cell>, nplanar: nat): (r: seq<Cell>)
    requires nplanar > 0
    ensures |r| == |cells| && forall e :: 0 <= e < |r| ==> |r[e]| == |cells[e]|
  {
    seq(|cells|, e requires 0 <= e < |cells| =>
      seq(|cells[e]|, c requires 0 <= c < |cells[e]| => LayerShift(cells[e][c], nplanar)))
  }

  lemma PlanarSlot(nlat: nat, nlon: nat, i: nat, j: nat)
    requires i < nlat && j < nlon
    ensures i * nlon + j < nlat * nlon
  {
    MulMono(i, nlat - 1, nlon);
  }

  lemma LayerSlot(nv: nat, nh: nat, l: nat, r: int)
    requires l < nv && 0 <= r < nh
    ensures 0 <= l * nh + r < nv * nh
  {
    MulMono(l, nv - 1, nh);
  }

  /** Number of structured hexahedra. */
  function HexCount(nv: nat, nlat: nat, nlon: nat): nat
    requires nv >= 1 && nlat >= 1 && nlon >= 1
  {
    (nv - 1) * (nlat - 1) * (nlon - 1)
  }

  /** Position of structured hexahedron (l, i, j). */
  function HexPos(nlat: nat, nlon: nat, l: nat, i: nat, j: nat): nat
    requires nlat >= 1 && nlon >= 1
  {
    (l * (nlat - 1) + i) * (nlon - 1) + j
  }

  /** Position of seam cell (l, i) within the seam block. */
  function SeamPos(nlat: nat, l: nat, i: nat): nat
    requires nlat >= 1
  {
    l * (nlat - 1) + i
  }

  /** Position of cap cell (l, j) within a cap block. */
  function CapPos(nlon: nat, l: nat, j: nat): nat {
    l * nlon + j
  }

  lemma ShiftedNode(nlat: nat, nlon: nat, a: nat, b: nat, k: nat)
    requires b < nlat && k < nlon
    ensures LayerShift(Reader.Node3(nlat, nlon, a, b, k), nlat * nlon) == VolNode(Nh(nlat, nlon), nlon, a, b, k)
  {
    var np := nlat * nlon;
    assert Reader.Node3(nlat, nlon, a, b, k) == a * np + (b * nlon + k) by {
      assert (a * nlat + b) * nlon == a * (nlat * nlon) + b * nlon;
    }
    PlanarSlot(nlat, nlon, b, k);
    LayerShiftOfNode(np, a, b * nlon + k);
  }

  /** Corner `c` of structured hexahedron `(l, i, j)`, numbered with poles. */
  function HexNode(nlat: nat, nlon: nat, l: nat, i: nat, j: nat, c: nat): int
    requires c < 8
  {
    var off := Offset(3, c);
    VolNode(Nh(nlat, nlon), nlon, l + off[0], i + off[1], j + off[2])
  }

  /** Hexahedron `(l, i, j)` of block `b` exists and has corner `c` at `HexNode(.., l, i, j, c)`. */
  predicate HexCornerAt(b: seq<Cell>, nlat: nat, nlon: nat, l: nat, i: nat, j: nat, c: nat)
    requires nlat >= 1 && nlon >= 1 && c < 8
  {
    var e := HexPos(nlat, nlon, l, i, j);
    e < |b| && c < |b[e]| && b[e][c] == HexNode(nlat, nlon, l, i, j, c)
  }

  lemma VolInteriorCorner(nv: nat, nlat: nat, nlon: nat, b: seq<Cell>, l: nat, i: nat, j: nat, c: nat)
    requires nv >= 2 && nlat >= 2 && nlon >= 2 && nlat * nlon > 0
    requires b == ShiftLayers(Cells(VolumetricShape(nv, nlat, nlon)), nlat * nlon)
    requires l < nv - 1 && i < nlat - 1 && j < nlon - 1 && c < 8
    ensures HexCornerAt(b, nlat, nlon, l, i, j, c)
  {
    var off := Offset(3, c);
    var cells := Cells(VolumetricShape(nv, nlat, nlon));
    var e := HexPos(nlat, nlon, l, i, j);
    assert e == Reader.Node3(nlat - 1, nlon - 1, l, i, j);
    assert Reader.CellShape([nv, nlat, nlon]) == VolumetricShape(nv, nlat, nlon);
    Reader.HexCorner(nv, nlat, nlon, l, i, j, c, off[0], off[1], off[2]);
    ShiftedNode(nlat, nlon, l + off[0], i + off[1], j + off[2]);
    assert b[e][c] == LayerShift(cells[e][c], nlat * nlon);
  }

  lemma VolInteriorCorners(nv: nat, nlat: nat, nlon: nat, b: seq<Cell>)
    requires nv >= 2 && nlat >= 2 && nlon >= 2 && nlat * nlon > 0
    requires b == ShiftLayers(Cells(VolumetricShape(nv, nlat, nlon)), nlat * nlon)
    ensures forall l: nat, i: nat, j: nat, c: nat :: l < nv - 1 && i < nlat - 1 && j < nlon - 1 && c < 8 ==>
      HexCornerAt(b, nlat, nlon, l, i, j, c)
  {
    forall l: nat, i: nat, j: nat, c: nat | l < nv - 1 && i < nlat - 1 && j < nlon - 1 && c < 8
      ensures HexCornerAt(b, nlat, nlon, l, i, j, c)
    {
      VolInteriorCorner(nv, nlat, nlon, b, l, i, j, c);
    }
  }

  /** The unshifted structured block: its size, width and range. */
  lemma VolCellsBlock(nv: nat, nlat: nat, nlon: nat)
    requires nv >= 2 && nlat >= 2 && nlon >= 2
    ensures var cells := Cells(VolumetricShape(nv, nlat, nlon));
      |cells| == HexCount(nv, nlat, nlon) && AllWidth(cells, 8) && AllWithin(cells, 0, nv * (nlat * nlon))
  {
    var cs := VolumetricShape(nv, nlat, nlon);
    var cells := Cells(cs);
    ShapesSpanNodes(nv, nlat, nlon);
    assert |cells| == HexCount(nv, nlat, nlon);
    assert Pow2(|cs|) == 8;
    assert AllWidth(cells, 8);
    CellsBounded(cs);
    var n := Prod(NodeShape(cs));
    assert n == nv * (nlat * nlon) by {
      assert nv * nlat * nlon == nv * (nlat * nlon);
    }
    assert AllWithin(cells, 0, n);
  }

  /** Shifting the cells of `nv` layers of `np` nodes each keeps them in range and off the pole slots. */
  lemma ShiftedWithinLayers(cells: seq<Cell>, np: nat, nv: nat)
    requires np > 0 && AllWithin(cells, 0, nv * np)
    ensures AllWithin(ShiftLayers(cells, np), 0, nv * (np + 2))
    ensures forall e, c :: 0 <= e < |cells| && 0 <= c < |cells[e]| ==> ShiftLayers(cells, np)[e][c] % (np + 2) < np
  {
    var b := ShiftLayers(cells, np);
    forall e, c | 0 <= e < |b| && 0 <= c < |b[e]|
      ensures 0 <= b[e][c] < nv * (np + 2) && b[e][c] % (np + 2) < np
    {
      LayerShiftBound(np, nv, cells[e][c]);
    }
  }

  /**
   * `structured_cells(volumetric_shape, 3)` followed by the layer shift: hexahedron (l, i, j)
   * has corner `c` at node `(i, j) + Offset(c)` of layer `l + Offset(c)[0]` in the numbering
   * with poles, and no corner is a pole.
   */
  method VolInterior(nv: nat, nlat: nat, nlon: nat) returns (b: seq<Cell>)
    requires nv >= 2 && nlat >= 2 && nlon >= 2
    ensures |b| == HexCount(nv, nlat, nlon) && AllWidth(b, 8) && AllWithin(b, 0, nv * Nh(nlat, nlon))
    ensures forall e, c :: 0 <= e < |b| && 0 <= c < |b[e]| ==> b[e][c] % Nh(nlat, nlon) < nlat * nlon
    ensures forall l: nat, i: nat, j: nat, c: nat :: l < nv - 1 && i < nlat - 1 && j < nlon - 1 && c < 8 ==>
      HexCornerAt(b, nlat, nlon, l, i, j, c)
  {
    var np := nlat * nlon;
    assert np > 0 by {
      MulMono(1, nlat, nlon);
    }
    var cells := Cells(VolumetricShape(nv, nlat, nlon));
    VolCellsBlock(nv, nlat, nlon);
    b := ShiftLayers(cells, np);
    ShiftedWithinLayers(cells, np, nv);
    VolInteriorCorners(nv, nlat, nlon, b);
  }

  /** Volumetric seam node map `nodemap((nvert, nlat, 2), (nhorizontal, nlon, nlon - 1))`. */
  function VolSeamMap(nv: nat, nlat: nat, nlon: nat): NodeMap
    requires nlon >= 1
  {
    StridedMap([nv, nlat, 2], [Nh(nlat, nlon), nlon, nlon - 1], {}, 0)
  }

  /**
   * Volumetric south cap node map: `nodemap((nvert, 2, nlon + 1), (nhorizontal, nplanar, 1),
   * periodic=(2,))` with row 1 of every layer snapped onto that layer's south pole.
   */
  function VolSouthMap(nv: nat, nlat: nat, nlon: nat): NodeMap {
    SnapToPole(StridedMap([nv, 2, nlon + 1], [Nh(nlat, nlon), nlat * nlon, 1], {2}, 0),
               1, nlat * nlon, Nh(nlat, nlon))
  }

  /**
   * Volumetric north cap node map: `nodemap((nvert, 2, nlon + 1), (nhorizontal, -nlon - 1, 1),
   * periodic=(2,), init=nplanar + 1)` with row 0 of every layer snapped onto that layer's north pole.
   */
  function VolNorthMap(nv: nat, nlat: nat, nlon: nat): NodeMap {
    SnapToPole(StridedMap([nv, 2, nlon + 1], [Nh(nlat, nlon), -(nlon as int) - 1, 1], {2}, nlat * nlon + 1),
               0, nlat * nlon + 1, Nh(nlat, nlon))
  }

  lemma VolSeamMapAt(nv: nat, nlat: nat, nlon: nat, a: nat, b: nat, w: nat)
    requires nlon >= 1 && a < nv && b < nlat && w < 2
    ensures VolSeamMap(nv, nlat, nlon)([a, b, w]) == VolNode(Nh(nlat, nlon), nlon, a, b, w * (nlon - 1))
    ensures 0 <= VolSeamMap(nv, nlat, nlon)([a, b, w]) < nv * Nh(nlat, nlon)
  {
    StridedMap3(nv, nlat, 2, Nh(nlat, nlon), nlon, nlon - 1, {}, 0, a, b, w);
    assert w * (nlon - 1) < nlon by {
      if w == 1 {
        assert w * (nlon - 1) == nlon - 1;
      }
    }
    PlanarSlot(nlat, nlon, b, w * (nlon - 1));
    LayerSlot(nv, Nh(nlat, nlon), a, b * nlon + w * (nlon - 1));
  }

  /** Around a parallel, the periodic wrap of `j + o` is `(j + o) % nlon`. */
  lemma WrapIsMod(j: nat, o: nat, nlon: nat)
    requires j < nlon && o <= 1
    ensures Wrap(j + o, nlon + 1, true) == (j + o) % nlon
  {
    if j + o < nlon {
      DivModOf(0, j + o, nlon);
    } else {
      DivModOf(1, 0, nlon);
    }
  }

  /** Row `a` of layer `l` of a cap node map: the pole of that layer, or node `w` of a parallel. */
  lemma SnapRow(l: nat, nh: nat, pole: nat, w: nat)
    requires w < nh
    ensures (l * nh + w) / nh * nh + pole == l * nh + pole
  {
    DivModOf(l, w, nh);
  }

  lemma VolSouthMapAt(nv: nat, nlat: nat, nlon: nat, l: nat, a: nat, b: nat)
    requires nlat >= 1 && nlon >= 1 && l < nv && a < 2 && b <= nlon
    ensures VolSouthMap(nv, nlat, nlon)([l, a, b])
         == if a == 1 then l * Nh(nlat, nlon) + nlat * nlon
            else VolNode(Nh(nlat, nlon), nlon, l, 0, Wrap(b, nlon + 1, true))
    ensures 0 <= VolSouthMap(nv, nlat, nlon)([l, a, b]) < nv * Nh(nlat, nlon)
  {
    var nh, np := Nh(nlat, nlon), nlat * nlon;
    var w := Wrap(b, nlon + 1, true);
    SouthRaw(nv, nlat, nlon, l, a, b);
    if a == 1 {
      SnapRow(l, nh, np, w);
      LayerSlot(nv, nh, l, np);
    } else {
      LayerSlot(nv, nh, l, w);
    }
  }

  /** The south cap's node map before snapping to the pole: the stride `nplanar` along the second axis. */
  lemma SouthRaw(nv: nat, nlat: nat, nlon: nat, l: nat, a: nat, b: nat)
    requires nlat >= 1 && nlon >= 1 && a < 2 && b <= nlon
    ensures Wrap(b, nlon + 1, true) < nlon && nlon <= nlat * nlon
    ensures StridedMap([nv, 2, nlon + 1], [Nh(nlat, nlon), nlat * nlon, 1], {2}, 0)([l, a, b])
         == l * Nh(nlat, nlon) + (a * (nlat * nlon) + Wrap(b, nlon + 1, true))
  {
    StridedMap3(nv, 2, nlon + 1, Nh(nlat, nlon), nlat * nlon, 1, {2}, 0, l, a, b);
    MulMono(1, nlat, nlon);
  }

  /** The north cap's node map before snapping to the pole: the stride `-nlon - 1` along the second axis. */
  lemma NorthRaw(nv: nat, nlat: nat, nlon: nat, l: nat, a: nat, b: nat)
    requires nlat >= 1 && nlon >= 1 && a < 2 && b <= nlon
    ensures Wrap(b, nlon + 1, true) < nlon
    ensures a == 0 ==>
      (StridedMap([nv, 2, nlon + 1], [Nh(nlat, nlon), -(nlon as int) - 1, 1], {2}, nlat * nlon + 1)([l, a, b])
           == l * Nh(nlat, nlon) + Wrap(b, nlon + 1, true) + (nlat * nlon + 1))
    ensures a == 1 ==>
      (StridedMap([nv, 2, nlon + 1], [Nh(nlat, nlon), -(nlon as int) - 1, 1], {2}, nlat * nlon + 1)([l, a, b])
           == l * Nh(nlat, nlon) + ((nlat - 1) * nlon + Wrap(b, nlon + 1, true)))
  {
    StridedMap3(nv, 2, nlon + 1, Nh(nlat, nlon), -(nlon as int) - 1, 1, {2}, nlat * nlon + 1, l, a, b);
    assert (nlat - 1) * nlon == nlat * nlon - nlon;
  }

  lemma VolNorthMapAt(nv: nat, nlat: nat, nlon: nat, l: nat, a: nat, b: nat)
    requires nlat >= 1 && nlon >= 1 && l < nv && a < 2 && b <= nlon
    ensures VolNorthMap(nv, nlat, nlon)([l, a, b])
         == if a == 0 then l * Nh(nlat, nlon) + nlat * nlon + 1
            else VolNode(Nh(nlat, nlon), nlon, l, nlat - 1, Wrap(b, nlon + 1, true))
    ensures 0 <= VolNorthMap(nv, nlat, nlon)([l, a, b]) < nv * Nh(nlat, nlon)
  {
    var nh, np := Nh(nlat, nlon), nlat * nlon;
    var w := Wrap(b, nlon + 1, true);
    NorthRaw(nv, nlat, nlon, l, a, b);
    if a == 0 {
      SnapRow(l, nh, np + 1, w);
      LayerSlot(nv, nh, l, np + 1);
    } else {
      PlanarSlot(nlat, nlon, nlat - 1, w);
      LayerSlot(nv, nh, l, (nlat - 1) * nlon + w);
    }
  }

  /** The seam block `structured_cells((nvert - 1, nlat - 1, 1), 3, nodemap)`. */
  function VolSeam(nv: nat, nlat: nat, nlon: nat): seq<Cell>
    requires nv >= 2 && nlat >= 2 && nlon >= 1
  {
    StructuredCells([nv - 1, nlat - 1, 1], VolSeamMap(nv, nlat, nlon))
  }

  /** The south cap block `structured_cells((nvert - 1, 1, nlon), 3, nodemap)`. */
  function VolSouthCap(nv: nat, nlat: nat, nlon: nat): seq<Cell>
    requires nv >= 2 && nlon >= 1
  {
    StructuredCells([nv - 1, 1, nlon], VolSouthMap(nv, nlat, nlon))
  }

  /** The north cap block `structured_cells((nvert - 1, 1, nlon), 3, nodemap)`. */
  function VolNorthCap(nv: nat, nlat: nat, nlon: nat): seq<Cell>
    requires nv >= 2 && nlon >= 1
  {
    StructuredCells([nv - 1, 1, nlon], VolNorthMap(nv, nlat, nlon))
  }

  /** Corner `c` of seam cell `(l, i)`: the west node (`Offset(c)[2] == 0`) or the east node of a row. */
  function SeamNode(nlat: nat, nlon: nat, l: nat, i: nat, c: nat): int
    requires nlon >= 1 && c < 8
  {
    var off := Offset(3, c);
    VolNode(Nh(nlat, nlon), nlon, l + off[0], i + off[1], off[2] * (nlon - 1))
  }

  /** Corner `c` of south cap cell `(l, j)`: the south pole of its layer, or a node of the southernmost parallel. */
  function SouthNode(nlat: nat, nlon: nat, l: nat, j: nat, c: nat): int
    requires nlon >= 1 && c < 8
  {
    var off := Offset(3, c);
    if off[1] == 1 then (l + off[0]) * Nh(nlat, nlon) + nlat * nlon
    else VolNode(Nh(nlat, nlon), nlon, l + off[0], 0, (j + off[2]) % nlon)
  }

  /** Corner `c` of north cap cell `(l, j)`: the north pole of its layer, or a node of the northernmost parallel. */
  function NorthNode(nlat: nat, nlon: nat, l: nat, j: nat, c: nat): int
    requires nlat >= 1 && nlon >= 1 && c < 8
  {
    var off := Offset(3, c);
    if off[1] == 0 then (l + off[0]) * Nh(nlat, nlon) + nlat * nlon + 1
    else VolNode(Nh(nlat, nlon), nlon, l + off[0], nlat - 1, (j + off[2]) % nlon)
  }

  /**
   * A south cap corner lies in layer `l + Offset(c)[0]`; it is that layer's south pole slot
   * exactly when `Offset(c)[1] == 1`, and otherwise one of the `nlon` nodes of its southernmost parallel.
   */
  lemma SouthNodeInLayer(nlat: nat, nlon: nat, l: nat, j: nat, c: nat)
    requires nlat >= 1 && nlon >= 1 && c < 8
    ensures SouthNode(nlat, nlon, l, j, c) / Nh(nlat, nlon) == l + Offset(3, c)[0]
    ensures SouthNode(nlat, nlon, l, j, c) % Nh(nlat, nlon) == nlat * nlon <==> Offset(3, c)[1] == 1
    ensures Offset(3, c)[1] == 0 ==> SouthNode(nlat, nlon, l, j, c) % Nh(nlat, nlon) < nlon
  {
    var off := Offset(3, c);
    var w := (j + off[2]) % nlon;
    MulMono(1, nlat, nlon);
    if off[1] == 1 {
      DivModOf(l + off[0], nlat * nlon, Nh(nlat, nlon));
    } else {
      DivModOf(l + off[0], w, Nh(nlat, nlon));
    }
  }

  /**
   * A north cap corner lies in layer `l + Offset(c)[0]`; it is that layer's north pole slot
   * exactly when `Offset(c)[1] == 0`, and otherwise one of the nodes of its northernmost parallel.
   */
  lemma NorthNodeInLayer(nlat: nat, nlon: nat, l: nat, j: nat, c: nat)
    requires nlat >= 1 && nlon >= 1 && c < 8
    ensures NorthNode(nlat, nlon, l, j, c) / Nh(nlat, nlon) == l + Offset(3, c)[0]
    ensures NorthNode(nlat, nlon, l, j, c) % Nh(nlat, nlon) == nlat * nlon + 1 <==> Offset(3, c)[1] == 0
    ensures Offset(3, c)[1] == 1 ==>
      (nlat - 1) * nlon <= NorthNode(nlat, nlon, l, j, c) % Nh(nlat, nlon) < nlat * nlon
  {
    var off := Offset(3, c);
    var w := (j + off[2]) % nlon;
    if off[1] == 0 {
      DivModOf(l + off[0], nlat * nlon + 1, Nh(nlat, nlon));
    } else {
      PlanarSlot(nlat, nlon, nlat - 1, w);
      DivModOf(l + off[0], (nlat - 1) * nlon + w, Nh(nlat, nlon));
    }
  }

  /** A structured hexahedron corner lies in layer `l + Offset(c)[0]` and is never a pole slot. */
  lemma HexNodeInLayer(nlat: nat, nlon: nat, l: nat, i: nat, j: nat, c: nat)
    requires nlat >= 2 && nlon >= 2 && i < nlat - 1 && j < nlon - 1 && c < 8
    ensures HexNode(nlat, nlon, l, i, j, c) / Nh(nlat, nlon) == l + Offset(3, c)[0]
    ensures HexNode(nlat, nlon, l, i, j, c) % Nh(nlat, nlon) < nlat * nlon
  {
    var off := Offset(3, c);
    PlanarSlot(nlat, nlon, i + off[1], j + off[2]);
    DivModOf(l + off[0], (i + off[1]) * nlon + j + off[2], Nh(nlat, nlon));
  }

  /** Seam cell `(l, i)`, counted from row `base` of `b`, has corner `c` at `SeamNode(.., l, i, c)`. */
  predicate SeamCornerAt(b: seq<Cell>, base: nat, nlat: nat, nlon: nat, l: nat, i: nat, c: nat)
    requires nlat >= 1 && nlon >= 1 && c < 8
  {
    var e := base + SeamPos(nlat, l, i);
    e < |b| && c < |b[e]| && b[e][c] == SeamNode(nlat, nlon, l, i, c)
  }

  /** South cap cell `(l, j)`, counted from row `base` of `b`, has corner `c` at `SouthNode(.., l, j, c)`. */
  predicate SouthCornerAt(b: seq<Cell>, base: nat, nlat: nat, nlon: nat, l: nat, j: nat, c: nat)
    requires nlon >= 1 && c < 8
  {
    var e := base + CapPos(nlon, l, j);
    e < |b| && c < |b[e]| && b[e][c] == SouthNode(nlat, nlon, l, j, c)
  }

  /** North cap cell `(l, j)`, counted from row `base` of `b`, has corner `c` at `NorthNode(.., l, j, c)`. */
  predicate NorthCornerAt(b: seq<Cell>, base: nat, nlat: nat, nlon: nat, l: nat, j: nat, c: nat)
    requires nlat >= 1 && nlon >= 1 && c < 8
  {
    var e := base + CapPos(nlon, l, j);
    e < |b| && c < |b[e]| && b[e][c] == NorthNode(nlat, nlon, l, j, c)
  }

  lemma VolSeamCorner(nv: nat, nlat: nat, nlon: nat, b: seq<Cell>, l: nat, i: nat, c: nat)
    requires nv >= 2 && nlat >= 2 && nlon >= 2 && b == VolSeam(nv, nlat, nlon)
    requires l < nv - 1 && i < nlat - 1 && c < 8
    ensures SeamCornerAt(b, 0, nlat, nlon, l, i, c)
  {
    var off := Offset(3, c);
    CellAt3([nv - 1, nlat - 1, 1], VolSeamMap(nv, nlat, nlon), l, i, 0, c);
    VolSeamMapAt(nv, nlat, nlon, l + off[0], i + off[1], off[2]);
  }

  lemma VolSouthCorner(nv: nat, nlat: nat, nlon: nat, b: seq<Cell>, l: nat, j: nat, c: nat)
    requires nv >= 2 && nlat >= 2 && nlon >= 2 && b == VolSouthCap(nv, nlat, nlon)
    requires l < nv - 1 && j < nlon && c < 8
    ensures SouthCornerAt(b, 0, nlat, nlon, l, j, c)
  {
    var off := Offset(3, c);
    CellAt3([nv - 1, 1, nlon], VolSouthMap(nv, nlat, nlon), l, 0, j, c);
    assert (l * 1 + 0) * nlon + j == CapPos(nlon, l, j);
    VolSouthMapAt(nv, nlat, nlon, l + off[0], off[1], j + off[2]);
    WrapIsMod(j, off[2], nlon);
  }

  lemma VolNorthCorner(nv: nat, nlat: nat, nlon: nat, b: seq<Cell>, l: nat, j: nat, c: nat)
    requires nv >= 2 && nlat >= 2 && nlon >= 2 && b == VolNorthCap(nv, nlat, nlon)
    requires l < nv - 1 && j < nlon && c < 8
    ensures NorthCornerAt(b, 0, nlat, nlon, l, j, c)
  {
    var off := Offset(3, c);
    CellAt3([nv - 1, 1, nlon], VolNorthMap(nv, nlat, nlon), l, 0, j, c);
    assert (l * 1 + 0) * nlon + j == CapPos(nlon, l, j);
    VolNorthMapAt(nv, nlat, nlon, l + off[0], off[1], j + off[2]);
    WrapIsMod(j, off[2], nlon);
  }

  /** Number of seam cells: one per layer and row. */
  function SeamCount(nv: nat, nlat: nat): nat
    requires nv >= 1 && nlat >= 1
  {
    (nv - 1) * (nlat - 1)
  }

  /** Number of cells in one pole cap: one per layer and meridian. */
  function CapCount(nv: nat, nlon: nat): nat
    requires nv >= 1
  {
    (nv - 1) * nlon
  }

  lemma VolSeamBlock(nv: nat, nlat: nat, nlon: nat)
    requires nv >= 2 && nlat >= 2 && nlon >= 2
    ensures |VolSeam(nv, nlat, nlon)| == SeamCount(nv, nlat)
    ensures AllWidth(VolSeam(nv, nlat, nlon), 8)
    ensures AllWithin(VolSeam(nv, nlat, nlon), 0, nv * Nh(nlat, nlon))
  {
    var cs, nm := [nv - 1, nlat - 1, 1], VolSeamMap(nv, nlat, nlon);
    Prod3(nv - 1, nlat - 1, 1);
    assert NodeShape(cs) == [nv, nlat, 2];
    forall idx | Within(idx, NodeShape(cs))
      ensures 0 <= nm(idx) < nv * Nh(nlat, nlon)
    {
      assert idx == [idx[0], idx[1], idx[2]];
      VolSeamMapAt(nv, nlat, nlon, idx[0], idx[1], idx[2]);
    }
    StructuredCellsBounded(cs, nm, 0, nv * Nh(nlat, nlon));
  }

  lemma VolSouthBlock(nv: nat, nlat: nat, nlon: nat)
    requires nv >= 2 && nlat >= 2 && nlon >= 2
    ensures |VolSouthCap(nv, nlat, nlon)| == CapCount(nv, nlon)
    ensures AllWidth(VolSouthCap(nv, nlat, nlon), 8)
    ensures AllWithin(VolSouthCap(nv, nlat, nlon), 0, nv * Nh(nlat, nlon))
  {
    var cs, nm := [nv - 1, 1, nlon], VolSouthMap(nv, nlat, nlon);
    Prod3(nv - 1, 1, nlon);
    assert NodeShape(cs) == [nv, 2, nlon + 1];
    forall idx | Within(idx, NodeShape(cs))
      ensures 0 <= nm(idx) < nv * Nh(nlat, nlon)
    {
      assert idx == [idx[0], idx[1], idx[2]];
      VolSouthMapAt(nv, nlat, nlon, idx[0], idx[1], idx[2]);
    }
    StructuredCellsBounded(cs, nm, 0, nv * Nh(nlat, nlon));
  }

  lemma VolNorthBlock(nv: nat, nlat: nat, nlon: nat)
    requires nv >= 2 && nlat >= 2 && nlon >= 2
    ensures |VolNorthCap(nv, nlat, nlon)| == CapCount(nv, nlon)
    ensures AllWidth(VolNorthCap(nv, nlat, nlon), 8)
    ensures AllWithin(VolNorthCap(nv, nlat, nlon), 0, nv * Nh(nlat, nlon))
  {
    var cs, nm := [nv - 1, 1, nlon], VolNorthMap(nv, nlat, nlon);
    Prod3(nv - 1, 1, nlon);
    assert NodeShape(cs) == [nv, 2, nlon + 1];
    forall idx | Within(idx, NodeShape(cs))
      ensures 0 <= nm(idx) < nv * Nh(nlat, nlon)
    {
      assert idx == [idx[0], idx[1], idx[2]];
      VolNorthMapAt(nv, nlat, nlon, idx[0], idx[1], idx[2]);
    }
    StructuredCellsBounded(cs, nm, 0, nv * Nh(nlat, nlon));
  }

  lemma VolSeamCorners(nv: nat, nlat: nat, nlon: nat, b: seq<Cell>)
    requires nv >= 2 && nlat >= 2 && nlon >= 2 && b == VolSeam(nv, nlat, nlon)
    ensures forall l: nat, i: nat, c: nat :: l < nv - 1 && i < nlat - 1 && c < 8 ==>
      SeamCornerAt(b, 0, nlat, nlon, l, i, c)
  {
    forall l: nat, i: nat, c: nat | l < nv - 1 && i < nlat - 1 && c < 8
      ensures SeamCornerAt(b, 0, nlat, nlon, l, i, c)
    {
      VolSeamCorner(nv, nlat, nlon, b, l, i, c);
    }
  }

  lemma VolSouthCorners(nv: nat, nlat: nat, nlon: nat, b: seq<Cell>)
    requires nv >= 2 && nlat >= 2 && nlon >= 2 && b == VolSouthCap(nv, nlat, nlon)
    ensures forall l: nat, j: nat, c: nat :: l < nv - 1 && j < nlon && c < 8 ==>
      SouthCornerAt(b, 0, nlat, nlon, l, j, c)
  {
    forall l: nat, j: nat, c: nat | l < nv - 1 && j < nlon && c < 8
      ensures SouthCornerAt(b, 0, nlat, nlon, l, j, c)
    {
      VolSouthCorner(nv, nlat, nlon, b, l, j, c);
    }
  }

  lemma VolNorthCorners(nv: nat, nlat: nat, nlon: nat, b: seq<Cell>)
    requires nv >= 2 && nlat >= 2 && nlon >= 2 && b == VolNorthCap(nv, nlat, nlon)
    ensures forall l: nat, j: nat, c: nat :: l < nv - 1 && j < nlon && c < 8 ==>
      NorthCornerAt(b, 0, nlat, nlon, l, j, c)
  {
    forall l: nat, j: nat, c: nat | l < nv - 1 && j < nlon && c < 8
      ensures NorthCornerAt(b, 0, nlat, nlon, l, j, c)
    {
      VolNorthCorner(nv, nlat, nlon, b, l, j, c);
    }
  }

  /** The volumetric seam block: cell (l, i) joins the east and west nodes of rows i and i + 1 of layers l and l + 1. */
  method VolSeamCells(nv: nat, nlat: nat, nlon: nat) returns (b: seq<Cell>)
    requires nv >= 2 && nlat >= 2 && nlon >= 2
    ensures |b| == SeamCount(nv, nlat) && AllWidth(b, 8) && AllWithin(b, 0, nv * Nh(nlat, nlon))
    ensures forall l: nat, i: nat, c: nat :: l < nv - 1 && i < nlat - 1 && c < 8 ==>
      SeamCornerAt(b, 0, nlat, nlon, l, i, c)
  {
    var nodemap := VolSeamMap(nv, nlat, nlon);
    b := StructuredCells([nv - 1, nlat - 1, 1], nodemap);
    VolSeamBlock(nv, nlat, nlon);
    VolSeamCorners(nv, nlat, nlon, b);
  }

  /** The volumetric south cap: cell (l, j) joins the southernmost parallel of layers l and l + 1 to their south poles. */
  method VolSouthCells(nv: nat, nlat: nat, nlon: nat) returns (b: seq<Cell>)
    requires nv >= 2 && nlat >= 2 && nlon >= 2
    ensures |b| == CapCount(nv, nlon) && AllWidth(b, 8) && AllWithin(b, 0, nv * Nh(nlat, nlon))
    ensures forall l: nat, j: nat, c: nat :: l < nv - 1 && j < nlon && c < 8 ==>
      SouthCornerAt(b, 0, nlat, nlon, l, j, c)
  {
    var nodemap := VolSouthMap(nv, nlat, nlon);
    b := StructuredCells([nv - 1, 1, nlon], nodemap);
    VolSouthBlock(nv, nlat, nlon);
    VolSouthCorners(nv, nlat, nlon, b);
  }

  /** The volumetric north cap: cell (l, j) joins the north poles of layers l and l + 1 to their northernmost parallel. */
  method VolNorthCells(nv: nat, nlat: nat, nlon: nat) returns (b: seq<Cell>)
    requires nv >= 2 && nlat >= 2 && nlon >= 2
    ensures |b| == CapCount(nv, nlon) && AllWidth(b, 8) && AllWithin(b, 0, nv * Nh(nlat, nlon))
    ensures forall l: nat, j: nat, c: nat :: l < nv - 1 && j < nlon && c < 8 ==>
      NorthCornerAt(b, 0, nlat, nlon, l, j, c)
  {
    var nodemap := VolNorthMap(nv, nlat, nlon);
    b := StructuredCells([nv - 1, 1, nlon], nodemap);
    VolNorthBlock(nv, nlat, nlon);
    VolNorthCorners(nv, nlat, nlon, b);
  }

  /** First row of the south cap block in the volumetric mesh. */
  function SouthBase(nv: nat, nlat: nat, nlon: nat): nat
    requires nv >= 1 && nlat >= 1 && nlon >= 1
  {
    HexCount(nv, nlat, nlon) + SeamCount(nv, nlat)
  }

  /** First row of the north cap block in the volumetric mesh. */
  function NorthBase(nv: nat, nlat: nat, nlon: nat): nat
    requires nv >= 1 && nlat >= 1 && nlon >= 1
  {
    SouthBase(nv, nlat, nlon) + CapCount(nv, nlon)
  }

  lemma HexCornerPrefix(b: seq<Cell>, rest: seq<Cell>, nlat: nat, nlon: nat, l: nat, i: nat, j: nat, c: nat)
    requires nlat >= 1 && nlon >= 1 && c < 8 && HexCornerAt(b, nlat, nlon, l, i, j, c)
    ensures HexCornerAt(b + rest, nlat, nlon, l, i, j, c)
  {
    assert (b + rest)[HexPos(nlat, nlon, l, i, j)] == b[HexPos(nlat, nlon, l, i, j)];
  }

  lemma SeamCornerShift(pre: seq<Cell>, b: seq<Cell>, post: seq<Cell>, nlat: nat, nlon: nat, l: nat, i: nat, c: nat)
    requires nlat >= 1 && nlon >= 1 && c < 8 && SeamCornerAt(b, 0, nlat, nlon, l, i, c)
    ensures SeamCornerAt(pre + b + post, |pre|, nlat, nlon, l, i, c)
  {
    var e := SeamPos(nlat, l, i);
    assert (pre + b + post)[|pre| + e] == b[e];
  }

  lemma SouthCornerShift(pre: seq<Cell>, b: seq<Cell>, post: seq<Cell>, nlat: nat, nlon: nat, l: nat, j: nat, c: nat)
    requires nlon >= 1 && c < 8 && SouthCornerAt(b, 0, nlat, nlon, l, j, c)
    ensures SouthCornerAt(pre + b + post, |pre|, nlat, nlon, l, j, c)
  {
    var e := CapPos(nlon, l, j);
    assert (pre + b + post)[|pre| + e] == b[e];
  }

  lemma NorthCornerShift(pre: seq<Cell>, b: seq<Cell>, nlat: nat, nlon: nat, l: nat, j: nat, c: nat)
    requires nlat >= 1 && nlon >= 1 && c < 8 && NorthCornerAt(b, 0, nlat, nlon, l, j, c)
    ensures NorthCornerAt(pre + b, |pre|, nlat, nlon, l, j, c)
  {
    var e := CapPos(nlon, l, j);
    assert (pre + b)[|pre| + e] == b[e];
  }

  /**
   * `periodic_volumetric_mesh`: the structured hexahedra with their node numbers shifted past
   * the poles of the layers below, then one seam cell per layer and row joining the east column
   * to the west one, then per layer a ring of cells to the south pole `l * nhorizontal + nplanar`
   * of each layer and a ring from the north pole `l * nhorizontal + nplanar + 1`. Every node
   * number is below `nvert * nhorizontal`, and no structured hexahedron touches a pole slot.
   */
  method PeriodicVolumetricMesh(nv: nat, nlat: nat, nlon: nat) returns (cells: seq<Cell>)
    requires nv >= 2 && nlat >= 2 && nlon >= 2
    ensures |cells| == NorthBase(nv, nlat, nlon) + CapCount(nv, nlon)
    ensures AllWidth(cells, 8) && AllWithin(cells, 0, nv * Nh(nlat, nlon))
    ensures forall e, c :: 0 <= e < HexCount(nv, nlat, nlon) && 0 <= c < 8 ==> cells[e][c] % Nh(nlat, nlon) < nlat * nlon
    ensures forall l: nat, i: nat, j: nat, c: nat :: l < nv - 1 && i < nlat - 1 && j < nlon - 1 && c < 8 ==>
      HexCornerAt(cells, nlat, nlon, l, i, j, c)
    ensures forall l: nat, i: nat, c: nat :: l < nv - 1 && i < nlat - 1 && c < 8 ==>
      SeamCornerAt(cells, HexCount(nv, nlat, nlon), nlat, nlon, l, i, c)
    ensures forall l: nat, j: nat, c: nat :: l < nv - 1 && j < nlon && c < 8 ==>
      SouthCornerAt(cells, SouthBase(nv, nlat, nlon), nlat, nlon, l, j, c)
    ensures forall l: nat, j: nat, c: nat :: l < nv - 1 && j < nlon && c < 8 ==>
      NorthCornerAt(cells, NorthBase(nv, nlat, nlon), nlat, nlon, l, j, c)
  {
    var interior := VolInterior(nv, nlat, nlon);
    var seam := VolSeamCells(nv, nlat, nlon);
    var south := VolSouthCells(nv, nlat, nlon);
    var north := VolNorthCells(nv, nlat, nlon);
    cells := interior;
    cells := cells + seam;
    cells := cells + south;
    cells := cells + north;

    ghost var hi := nv * Nh(nlat, nlon);
    AllWidthConcat(interior, seam, 8);
    AllWithinConcat(interior, seam, 0, hi);
    AllWidthConcat(interior + seam, south, 8);
    AllWithinConcat(interior + seam, south, 0, hi);
    AllWidthConcat(interior + seam + south, north, 8);
    AllWithinConcat(interior + seam + south, north, 0, hi);
    forall e, c | 0 <= e < HexCount(nv, nlat, nlon) && 0 <= c < 8
      ensures cells[e][c] % Nh(nlat, nlon) < nlat * nlon
    {
      assert cells[e] == interior[e];
    }
    forall l: nat, i: nat, j: nat, c: nat | l < nv - 1 && i < nlat - 1 && j < nlon - 1 && c < 8
      ensures HexCornerAt(cells, nlat, nlon, l, i, j, c)
    {
      HexCornerPrefix(interior, seam + south + north, nlat, nlon, l, i, j, c);
      assert interior + (seam + south + north) == cells;
    }
    forall l: nat, i: nat, c: nat | l < nv - 1 && i < nlat - 1 && c < 8
      ensures SeamCornerAt(cells, HexCount(nv, nlat, nlon), nlat, nlon, l, i, c)
    {
      SeamCornerShift(interior, seam, south + north, nlat, nlon, l, i, c);
      assert interior + seam + (south + north) == cells;
    }
    forall l: nat, j: nat, c: nat | l < nv - 1 && j < nlon && c < 8
      ensures SouthCornerAt(cells, SouthBase(nv, nlat, nlon), nlat, nlon, l, j, c)
    {
      SouthCornerShift(interior + seam, south, north, nlat, nlon, l, j, c);
    }
    forall l: nat, j: nat, c: nat | l < nv - 1 && j < nlon && c < 8
      ensures NorthCornerAt(cells, NorthBase(nv, nlat, nlon), nlat, nlon, l, j, c)
    {
      NorthCornerShift(interior + seam + south, north, nlat, nlon, l, j, c);
    }
  }
}
