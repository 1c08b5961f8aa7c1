/**
 * The VTK, VTU and PVD writers (siso/writer/vtk.py): the per-patch topology and field
 * dictionaries, the concatenation of all topologies into one unstructured grid, the
 * structured-grid dimensions and the PVD time step.
 */
module Vtk {
  import opened Wrappers
  import opened OrderedMap
  import Grid
  import Writer

  type Point = seq<real>

  /**
   * An unstructured topology: its node count, its number of corners per cell, its cells (one
   * row of node indices each), its structured shape and whether its cells are hexahedra.
   */
  datatype Topology = Topology(numNodes: nat, width: nat, cells: seq<seq<int>>, shape: seq<nat>, hex: bool)

  /** What `update_geometry` stores per patch: the topology and the node coordinates. */
  type Geometry = (Topology, seq<Point>)

  /** A field: whether it lives on cells, and its data per patch. */
  datatype VField = VField(cells: bool, data: Assoc<int, seq<Point>>)

  /** Every row has `width` entries, each a node of the topology. */
  predicate WellFormed(t: Topology) {
    forall r :: 0 <= r < |t.cells| ==> |t.cells[r]| == t.width && forall j :: 0 <= j < t.width ==> 0 <= t.cells[r][j] < t.numNodes
  }

  /** The topologies are well formed and each patch has one point per node. */
  predicate Consistent(gs: seq<Geometry>) {
    forall k :: 0 <= k < |gs| ==> WellFormed(gs[k].0) && |gs[k].1| == gs[k].0.numNodes
  }

  /* ---------------------------------------------------------------------------------------
   * Concatenating the topologies
   * --------------------------------------------------------------------------------------- */

  /** The number of nodes of the patches. */
  function NodeTotal(gs: seq<Geometry>): nat {
    if |gs| == 0 then 0 else NodeTotal(gs[..|gs| - 1]) + gs[|gs| - 1].0.numNodes
  }

  /** The number of cells of the patches. */
  function CellTotal(gs: seq<Geometry>): nat {
    if |gs| == 0 then 0 else CellTotal(gs[..|gs| - 1]) + |gs[|gs| - 1].0.cells|
  }

  /** One cell row with `off` added to each node index. */
  function ShiftRow(row: seq<int>, off: int): (r: seq<int>)
    ensures |r| == |row|
    ensures forall j :: 0 <= j < |row| ==> r[j] == row[j] + off
  {
    if |row| == 0 then [] else [row[0] + off] + ShiftRow(row[1..], off)
  }

  /** `p.cells + off` for a whole cell array. */
  function ShiftAll(rows: seq<seq<int>>, off: int): (r: seq<seq<int>>)
    ensures |r| == |rows|
    ensures forall i :: 0 <= i < |rows| ==> r[i] == ShiftRow(rows[i], off)
  {
    if |rows| == 0 then [] else [ShiftRow(rows[0], off)] + ShiftAll(rows[1..], off)
  }

  /** The stacked cells: each patch's cells shifted by the node count of the patches before it. */
  function ShiftedCells(gs: seq<Geometry>): (r: seq<seq<int>>)
    ensures |r| == CellTotal(gs)
  {
    if |gs| == 0 then []
    else
      var init := gs[..|gs| - 1];
      ShiftedCells(init) + ShiftAll(gs[|gs| - 1].0.cells, NodeTotal(init))
  }

  /** The stacked node coordinates. */
  function AllPoints(gs: seq<Geometry>): seq<Point> {
    if |gs| == 0 then [] else AllPoints(gs[..|gs| - 1]) + gs[|gs| - 1].1
  }

  /** The flat cell array of VTK: each row preceded by its corner count `w`. */
  function CellStream(rows: seq<seq<int>>, w: nat): seq<int> {
    if |rows| == 0 then [] else CellStream(rows[..|rows| - 1], w) + ([w] + rows[|rows| - 1])
  }

  datatype CellType = Hexahedron | Quad

  datatype UnstructuredGrid = UnstructuredGrid(cellType: CellType, points: seq<Point>, cells: seq<int>)

  /**
   * `next(iter(...))` on no topologies (`StopIteration`), and stacking cell arrays with
   * different corner counts (`ValueError`).
   */
  datatype GridError = NoTopologies | RaggedCells

  predicate SameWidth(gs: seq<Geometry>)
    requires |gs| > 0
  {
    forall k :: 0 <= k < |gs| ==> gs[k].0.width == gs[0].0.width
  }

  /**
   * The unstructured branch of `grid`, over the topologies in insertion order; the cell type
   * is that of the first patch.
   */
  function MakeGrid(gs: seq<Geometry>): (r: Result<UnstructuredGrid, GridError>)
    ensures |gs| == 0 <==> r == Err(NoTopologies)
    ensures |gs| > 0 ==> (r.Ok? <==> SameWidth(gs))
    ensures r.Ok? ==> (r.value.cellType == Hexahedron <==> gs[0].0.hex)
  {
    if |gs| == 0 then Err(NoTopologies)
    else if !SameWidth(gs) then Err(RaggedCells)
    else
      var cellType := if gs[0].0.hex then Hexahedron else Quad;
      Ok(UnstructuredGrid(cellType, AllPoints(gs), CellStream(ShiftedCells(gs), gs[0].0.width)))
  }

  lemma {:induction false} NodeTotalPrefix(gs: seq<Geometry>, k: nat)
    requires k < |gs|
    ensures NodeTotal(gs[..k]) + gs[k].0.numNodes <= NodeTotal(gs)
    decreases |gs|
  {
    var init := gs[..|gs| - 1];
    if k < |gs| - 1 {
      assert init[..k] == gs[..k];
      NodeTotalPrefix(init, k);
    } else {
      assert init == gs[..k];
    }
  }

  lemma {:induction false} CellTotalPrefix(gs: seq<Geometry>, k: nat)
    requires k < |gs|
    ensures CellTotal(gs[..k]) + |gs[k].0.cells| <= CellTotal(gs)
    decreases |gs|
  {
    var init := gs[..|gs| - 1];
    if k < |gs| - 1 {
      assert init[..k] == gs[..k];
      CellTotalPrefix(init, k);
    } else {
      assert init == gs[..k];
    }
  }

  /** Where cell `r` of patch `k` lands among the stacked cells: after the cells of the earlier patches. */
  function CellIndex(gs: seq<Geometry>, k: nat, r: nat): nat
    requires k <= |gs|
  {
    CellTotal(gs[..k]) + r
  }

  /** Row `r` of patch `k` lands after the cells of the earlier patches, shifted by their node count. */
  lemma {:induction false} ShiftedCellsAt(gs: seq<Geometry>, k: nat, r: nat)
    requires k < |gs| && r < |gs[k].0.cells|
    ensures CellIndex(gs, k, r) < |ShiftedCells(gs)|
    ensures ShiftedCells(gs)[CellIndex(gs, k, r)] == ShiftRow(gs[k].0.cells[r], NodeTotal(gs[..k]))
    decreases |gs|
  {
    var init := gs[..|gs| - 1];
    var e := CellIndex(gs, k, r);
    CellTotalPrefix(gs, k);
    if k < |gs| - 1 {
      assert init[..k] == gs[..k] && init[k] == gs[k];
      assert CellIndex(init, k, r) == e;
      ShiftedCellsAt(init, k, r);
      CellTotalPrefix(init, k);
      assert ShiftedCells(gs)[e] == ShiftedCells(init)[e];
    } else {
      assert init == gs[..k];
      assert e == |ShiftedCells(init)| + r;
      assert ShiftedCells(gs)[e] == ShiftAll(gs[k].0.cells, NodeTotal(init))[r];
    }
  }

  /** Where node `i` of patch `k` lands among the stacked points: after the nodes of the earlier patches. */
  function PointIndex(gs: seq<Geometry>, k: nat, i: int): int
    requires k <= |gs|
  {
    NodeTotal(gs[..k]) + i
  }

  /** Point `i` of patch `k` sits after the points of the earlier patches. */
  lemma {:induction false} AllPointsAt(gs: seq<Geometry>, k: nat, i: nat)
    requires Consistent(gs)
    requires k < |gs| && i < gs[k].0.numNodes
    ensures |AllPoints(gs)| == NodeTotal(gs)
    ensures NodeTotal(gs[..k]) + gs[k].0.numNodes <= NodeTotal(gs)
    ensures 0 <= PointIndex(gs, k, i) < |AllPoints(gs)| && AllPoints(gs)[PointIndex(gs, k, i)] == gs[k].1[i]
    decreases |gs|
  {
    NodeTotalPrefix(gs, k);
    var init := gs[..|gs| - 1];
    assert Consistent(init) by {
      forall k' | 0 <= k' < |init| ensures WellFormed(init[k'].0) && |init[k'].1| == init[k'].0.numNodes {
        assert init[k'] == gs[k'];
      }
    }
    AllPointsLength(init);
    if k < |gs| - 1 {
      assert init[..k] == gs[..k] && init[k] == gs[k];
      assert PointIndex(init, k, i) == PointIndex(gs, k, i);
      AllPointsAt(init, k, i);
      NodeTotalPrefix(init, k);
    } else {
      assert init == gs[..k];
    }
  }

  lemma {:induction false} AllPointsLength(gs: seq<Geometry>)
    requires Consistent(gs)
    ensures |AllPoints(gs)| == NodeTotal(gs)
    decreases |gs|
  {
    if |gs| > 0 {
      var init := gs[..|gs| - 1];
      assert Consistent(init) by {
        forall k' | 0 <= k' < |init| ensures WellFormed(init[k'].0) && |init[k'].1| == init[k'].0.numNodes {
          assert init[k'] == gs[k'];
        }
      }
      AllPointsLength(init);
    }
  }

  predicate RowsOfWidth(rows: seq<seq<int>>, w: nat) {
    forall r :: 0 <= r < |rows| ==> |rows[r]| == w
  }

  /** Each row of the flat cell array takes `w + 1` entries: the count, then the corners. */
  lemma {:induction false} CellStreamAt(rows: seq<seq<int>>, w: nat, i: nat, j: nat)
    requires RowsOfWidth(rows, w)
    requires i < |rows| && j <= w
    ensures |CellStream(rows, w)| == |rows| * (w + 1)
    ensures i * (w + 1) + j < |CellStream(rows, w)|
    ensures CellStream(rows, w)[i * (w + 1) + j] == ([w] + rows[i])[j]
    decreases |rows|
  {
    var n := |rows|;
    var q := w + 1;
    var init := rows[..n - 1];
    CellStreamLength(rows, w);
    CellStreamLength(init, w);
    RowWithin(i, n, q, j);
    if i < n - 1 {
      assert init[i] == rows[i];
      CellStreamAt(init, w, i, j);
    } else {
      assert i * q == (n - 1) * q;
    }
  }

  /** Position `j` of row `i` falls in the first `n` rows, and inside row `n - 1` at the latest. */
  lemma RowWithin(i: nat, n: nat, q: nat, j: nat)
    requires i < n && j < q
    ensures i * q + j < n * q
    ensures i < n - 1 ==> i * q + j < (n - 1) * q
    ensures (n - 1) * q + q == n * q
  {
    Grid.MulMono(i + 1, n, q);
    if i < n - 1 {
      Grid.MulMono(i + 1, n - 1, q);
    }
  }

  lemma {:induction false} CellStreamLength(rows: seq<seq<int>>, w: nat)
    requires RowsOfWidth(rows, w)
    ensures |CellStream(rows, w)| == |rows| * (w + 1)
    decreases |rows|
  {
    if |rows| > 0 {
      CellStreamLength(rows[..|rows| - 1], w);
      RowWithin(0, |rows|, w + 1, 0);
    }
  }

  /** The stacked rows all have the common corner count. */
  lemma ShiftedCellsWidth(gs: seq<Geometry>, w: nat, c: nat)
    requires Consistent(gs)
    requires forall k :: 0 <= k < |gs| ==> gs[k].0.width == w
    requires c < |ShiftedCells(gs)|
    ensures |ShiftedCells(gs)[c]| == w
    decreases |gs|
  {
    var init := gs[..|gs| - 1];
    var last := gs[|gs| - 1].0;
    assert Consistent(init) by {
      forall k' | 0 <= k' < |init| ensures WellFormed(init[k'].0) && |init[k'].1| == init[k'].0.numNodes {
        assert init[k'] == gs[k'];
      }
    }
    if c < |ShiftedCells(init)| {
      ShiftedCellsWidth(init, w, c);
    } else {
      assert WellFormed(last);
      assert ShiftedCells(gs)[c] == ShiftAll(last.cells, NodeTotal(init))[c - |ShiftedCells(init)|];
    }
  }

  lemma ShiftedCellsUniform(gs: seq<Geometry>, w: nat)
    requires Consistent(gs)
    requires forall k :: 0 <= k < |gs| ==> gs[k].0.width == w
    ensures RowsOfWidth(ShiftedCells(gs), w)
  {
    forall c | 0 <= c < |ShiftedCells(gs)| ensures |ShiftedCells(gs)[c]| == w {
      ShiftedCellsWidth(gs, w, c);
    }
  }

  /** The flat cell array has `ncells * (corners + 1)` entries. */
  lemma GridLength(gs: seq<Geometry>)
    requires Consistent(gs) && MakeGrid(gs).Ok?
    ensures |MakeGrid(gs).value.cells| == CellTotal(gs) * (gs[0].0.width + 1)
  {
    var w := gs[0].0.width;
    ShiftedCellsUniform(gs, w);
    CellStreamLength(ShiftedCells(gs), w);
  }

  /** Where the stacked cell `c` starts in the flat cell array of corner count `w`. */
  function RowStart(c: nat, w: nat): nat {
    c * (w + 1)
  }

  /** Where corner `j` of the stacked cell `c` sits: after the cell's leading corner count. */
  function CornerAt(c: nat, w: nat, j: nat): nat {
    RowStart(c, w) + 1 + j
  }

  /**
   * Cell `r` of patch `k` starts with its corner count, followed by its corners shifted by the
   * node count of the earlier patches.
   */
  lemma GridRow(gs: seq<Geometry>, k: nat, r: nat, j: nat)
    requires Consistent(gs) && MakeGrid(gs).Ok?
    requires k < |gs| && r < |gs[k].0.cells| && j < gs[k].0.width
    ensures j < |gs[k].0.cells[r]|
    ensures var cells := MakeGrid(gs).value.cells;
      && CornerAt(CellIndex(gs, k, r), gs[0].0.width, j) < |cells|
      && cells[RowStart(CellIndex(gs, k, r), gs[0].0.width)] == gs[0].0.width
      && cells[CornerAt(CellIndex(gs, k, r), gs[0].0.width, j)] == PointIndex(gs, k, gs[k].0.cells[r][j])
  {
    MakeGridCells(gs);
    StreamRow(gs, k, r, j);
  }

  /** `GridRow` on the stacked cell stream itself. */
  lemma StreamRow(gs: seq<Geometry>, k: nat, r: nat, j: nat)
    requires Consistent(gs) && |gs| > 0 && SameWidth(gs)
    requires k < |gs| && r < |gs[k].0.cells| && j < gs[k].0.width
    ensures j < |gs[k].0.cells[r]|
    ensures CornerAt(CellIndex(gs, k, r), gs[0].0.width, j) < |CellStream(ShiftedCells(gs), gs[0].0.width)|
    ensures CellStream(ShiftedCells(gs), gs[0].0.width)[RowStart(CellIndex(gs, k, r), gs[0].0.width)] == gs[0].0.width
    ensures CellStream(ShiftedCells(gs), gs[0].0.width)[CornerAt(CellIndex(gs, k, r), gs[0].0.width, j)]
         == PointIndex(gs, k, gs[k].0.cells[r][j])
  {
    assert WellFormed(gs[k].0) && gs[k].0.width == gs[0].0.width;
    ShiftedCellsUniform(gs, gs[0].0.width);
    ShiftedCellsAt(gs, k, r);
    assert ShiftedCells(gs)[CellIndex(gs, k, r)][j] == PointIndex(gs, k, gs[k].0.cells[r][j]);
    StreamRowAt(ShiftedCells(gs), gs[0].0.width, CellIndex(gs, k, r), j);
  }

  lemma MakeGridCells(gs: seq<Geometry>)
    requires MakeGrid(gs).Ok?
    ensures SameWidth(gs)
    ensures MakeGrid(gs).value.cells == CellStream(ShiftedCells(gs), gs[0].0.width)
    ensures MakeGrid(gs).value.points == AllPoints(gs)
  {
  }

  /** Row `c` of the stream is its corner count followed by the corners of `rows[c]`. */
  lemma StreamRowAt(rows: seq<seq<int>>, w: nat, c: nat, j: nat)
    requires RowsOfWidth(rows, w) && c < |rows| && j < w
    ensures CornerAt(c, w, j) < |CellStream(rows, w)|
    ensures CellStream(rows, w)[RowStart(c, w)] == w
    ensures CellStream(rows, w)[CornerAt(c, w, j)] == rows[c][j]
  {
    CellStreamAt(rows, w, c, 0);
    CellStreamAt(rows, w, c, 1 + j);
  }

  /**
   * Every corner of the stacked grid names, in the stacked point array, exactly the point its
   * own patch gives that node.
   */
  lemma GridCorner(gs: seq<Geometry>, k: nat, r: nat, j: nat)
    requires Consistent(gs) && MakeGrid(gs).Ok?
    requires k < |gs| && r < |gs[k].0.cells| && j < gs[k].0.width
    ensures j < |gs[k].0.cells[r]|
    ensures var g := MakeGrid(gs).value;
      var pos := CornerAt(CellIndex(gs, k, r), gs[0].0.width, j);
      && pos < |g.cells|
      && 0 <= g.cells[pos] < |g.points|
      && g.points[g.cells[pos]] == gs[k].1[gs[k].0.cells[r][j]]
  {
    GridRow(gs, k, r, j);
    assert WellFormed(gs[k].0);
    AllPointsAt(gs, k, gs[k].0.cells[r][j]);
  }

  /* ---------------------------------------------------------------------------------------
   * Structured dimensions and the PVD time step
   * --------------------------------------------------------------------------------------- */

  /** The structured branch of `grid`: pad the shape with zeros to three entries, then add one to each. */
  method StructuredDimensions(shape: seq<nat>) returns (dims: seq<nat>)
    ensures |dims| == if |shape| < 3 then 3 else |shape|
    ensures forall i :: 0 <= i < |shape| ==> dims[i] == shape[i] + 1
    ensures forall i :: |shape| <= i < |dims| ==> dims[i] == 1
  {
    var padded := shape;
    while |padded| < 3
      invariant |shape| <= |padded| <= if |shape| < 3 then 3 else |shape|
      invariant padded[..|shape|] == shape
      invariant forall i :: |shape| <= i < |padded| ==> padded[i] == 0
      decreases 3 - |padded|
    {
      padded := padded + [0];
    }
    dims := [];
    var i := 0;
    while i < |padded|
      invariant 0 <= i <= |padded| && |dims| == i
      invariant forall t :: 0 <= t < i ==> dims[t] == padded[t] + 1
    {
      dims := dims + [padded[i] + 1];
      i := i + 1;
    }
    assert forall t :: 0 <= t < |shape| ==> padded[t] == padded[..|shape|][t];
  }

  /** The `timestep` attribute of a PVD data set. */
  datatype Timestep = TimeValue(value: real) | StepIndex(index: int)

  /** The first step-data value when there is one, else the step id. */
  function PvdTimestep(stepData: Writer.StepData, stepId: int): (r: Timestep)
    ensures r.TimeValue? <==> |stepData| > 0
    ensures r.TimeValue? ==> r.value == stepData[0].1
    ensures r.StepIndex? ==> r.index == stepId
  {
    if |stepData| > 0 then TimeValue(stepData[0].1) else StepIndex(stepId)
  }

  /** Adding further keys to non-empty step data does not change the time step. */
  lemma PvdTimestepKeepsFirst(stepData: Writer.StepData, stepId: int, k: string, v: real)
    requires |stepData| > 0 && k != stepData[0].0
    ensures PvdTimestep(Put(stepData, k, v), stepId) == PvdTimestep(stepData, stepId)
  {
    assert Put(stepData, k, v)[0] == stepData[0];
  }

  /* ---------------------------------------------------------------------------------------
   * The writer's dictionaries
   * --------------------------------------------------------------------------------------- */

  /** `fields.setdefault(name, Field(cells, {})).data[key] = data`. */
  function FieldUpdate(fields: Assoc<string, VField>, name: string, cells: bool, key: int, data: seq<Point>)
    : Assoc<string, VField>
  {
    var (f, withField) := SetDefault(fields, name, VField(cells, []));
    Put(withField, name, VField(f.cells, Put(f.data, key, data)))
  }

  /**
   * A field keeps the cell flag of its first update; each update sets exactly the data of its
   * patch and leaves the other patches and the other fields alone.
   */
  lemma FieldUpdateSame(fields: Assoc<string, VField>, name: string, cells: bool, key: int, data: seq<Point>)
    ensures Get(FieldUpdate(fields, name, cells, key, data), name).Some?
    ensures var f := Get(FieldUpdate(fields, name, cells, key, data), name).value;
      && f.cells == (if Get(fields, name).Some? then Get(fields, name).value.cells else cells)
      && Get(f.data, key) == Some(data)
  {
    var (f, withField) := SetDefault(fields, name, VField(cells, []));
    GetPutSame(withField, name, VField(f.cells, Put(f.data, key, data)));
    GetPutSame(f.data, key, data);
  }

  lemma FieldUpdateOtherPatch(fields: Assoc<string, VField>, name: string, cells: bool, key: int, data: seq<Point>,
                              key': int)
    requires key' != key && Get(fields, name).Some?
    ensures Get(Get(FieldUpdate(fields, name, cells, key, data), name).value.data, key')
         == Get(Get(fields, name).value.data, key')
  {
    var f := Get(fields, name).value;
    GetPutSame(fields, name, VField(f.cells, Put(f.data, key, data)));
    GetPutOther(f.data, key, data, key');
  }

  lemma {:induction false} FieldUpdateOtherField(fields: Assoc<string, VField>, name: string, cells: bool, key: int,
                                                 data: seq<Point>, name': string)
    requires name' != name
    ensures Get(FieldUpdate(fields, name, cells, key, data), name') == Get(fields, name')
  {
    var (f, withField) := SetDefault(fields, name, VField(cells, []));
    GetPutOther(withField, name, VField(f.cells, Put(f.data, key, data)), name');
    if Get(fields, name).None? {
      AppendGetOther(fields, name, VField(cells, []), name');
    }
  }

  class VtkWriter {
    /** Geometry per patch key, in the order the patches first appeared. */
    var topologies: Assoc<int, Geometry>
    /** Fields by name, in the order they first appeared. */
    var fields: Assoc<string, VField>

    constructor()
      ensures topologies == [] && fields == []
    {
      topologies := [];
      fields := [];
    }

    /** `update_geometry`: stores or overwrites exactly the entry of `key`. */
    method UpdateGeometry(key: int, topology: Topology, points: seq<Point>)
      modifies this
      ensures topologies == Put(old(topologies), key, (topology, points))
      ensures fields == old(fields)
    {
      topologies := Put(topologies, key, (topology, points));
    }

    /** `update_field`. */
    method UpdateField(name: string, cells: bool, key: int, data: seq<Point>)
      modifies this
      ensures fields == FieldUpdate(old(fields), name, cells, key, data)
      ensures topologies == old(topologies)
    {
      var f := VField(cells, []);
      if Get(fields, name).None? {
        fields := fields + [(name, f)];
      } else {
        f := Get(fields, name).value;
      }
      fields := Put(fields, name, VField(f.cells, Put(f.data, key, data)));
    }

    /** The grid of the current step, over the topologies in insertion order. */
    function CurrentGrid(): (r: Result<UnstructuredGrid, GridError>)
      reads this
      ensures r.Err? ==> |topologies| == 0 || !SameWidth(Values(topologies))
    {
      MakeGrid(Values(topologies))
    }
  }
}
