/**
 * The index and schedule bookkeeping of the spline-patch reader: element connectivity of a
 * tesselated patch, the per-node "last written" record that decides whether geometry is
 * written again, orientation of a tesselation schedule, midpoint schedules for cell-valued
 * fields, channel promotion and per-component field naming, and the basis-level search.
 */
module Reader {
  import opened Wrappers
  import opened Strings
  import opened Grid

  /** One sample-coordinate sequence per parametric direction. */
  type Schedule = seq<seq<real>>

  /** A node grid the element construction handles: one to three directions, at least two nodes each. */
  predicate ValidNodeShape(shape: Shape) {
    1 <= |shape| <= 3 && forall k :: 0 <= k < |shape| ==> shape[k] >= 2
  }

  /** The number of cells along each direction of a node grid. */
  function CellShape(shape: Shape): (cs: Shape)
    requires ValidNodeShape(shape)
    ensures ValidCellShape(cs) && |cs| == |shape|
  {
    seq(|shape|, k requires 0 <= k < |shape| => shape[k] - 1)
  }

  /** The node-grid shape of evaluating a patch at a schedule: one node per sample. */
  function ScheduleShape(t: Schedule): (shape: Shape)
    ensures |shape| == |t| && forall k :: 0 <= k < |t| ==> shape[k] == |t[k]|
  {
    seq(|t|, k requires 0 <= k < |t| => |t[k]|)
  }

  lemma NodeShapeOfCellShape(shape: Shape)
    requires ValidNodeShape(shape)
    ensures NodeShape(CellShape(shape)) == shape
  {
  }

  /**
   * Element connectivity of a node grid of shape `shape` (`nodes.shape[:-1]`): one row per
   * cell in product order, each with 2^d row-major node numbers, all below the node count.
   */
  function Elements(shape: Shape): (els: seq<Cell>)
    requires ValidNodeShape(shape)
    ensures |els| == Prod(CellShape(shape))
    ensures forall e :: 0 <= e < |els| ==> |els[e]| == Pow2(|shape|)
    ensures forall e, c :: 0 <= e < |els| && 0 <= c < |els[e]| ==> 0 <= els[e][c] < Prod(shape)
  {
    CellsBounded(CellShape(shape));
    NodeShapeOfCellShape(shape);
    Cells(CellShape(shape))
  }

  /** The flat-index loop of the element construction: the rows of `eidxs`, filled column by column. */
  method BuildElements(shape: Shape) returns (eidxs: seq<Cell>)
    requires ValidNodeShape(shape)
    ensures eidxs == Elements(shape)
  {
    var cs := CellShape(shape);
    var nm := RavelMap(NodeShape(cs));
    var n, w := Prod(cs), Pow2(|shape|);
    eidxs := seq(n, _ => seq(w, _ => 0));
    for c := 0 to w
      invariant |eidxs| == n && forall e :: 0 <= e < n ==> |eidxs[e]| == w
      invariant forall e, c' :: 0 <= e < n && 0 <= c' < c ==> eidxs[e][c'] == Corner(cs, nm, e, c')
    {
      for e := 0 to n
        invariant |eidxs| == n && forall e' :: 0 <= e' < n ==> |eidxs[e']| == w
        invariant forall e', c' :: 0 <= e' < n && 0 <= c' < c ==> eidxs[e'][c'] == Corner(cs, nm, e', c')
        invariant forall e' :: 0 <= e' < e ==> eidxs[e'][c] == Corner(cs, nm, e', c)
      {
        eidxs := eidxs[e := eidxs[e][c := Corner(cs, nm, e, c)]];
      }
    }
    forall e | 0 <= e < n
      ensures eidxs[e] == Elements(shape)[e]
    {
    }
  }

  /** Corner `c` of the element whose cell origin is `idx` is the row-major number of node `idx + Offset(c)`. */
  lemma ElementCorner(shape: Shape, idx: Index, c: nat)
    requires ValidNodeShape(shape) && Within(idx, CellShape(shape)) && c < Pow2(|shape|)
    ensures Ravel(CellShape(shape), idx) < |Elements(shape)|
    ensures Elements(shape)[Ravel(CellShape(shape), idx)][c] == Ravel(shape, Shifted(idx, Offset(|shape|, c)))
  {
    NodeShapeOfCellShape(shape);
    CellAtOrigin(CellShape(shape), RavelMap(shape), idx, c);
  }

  /** One direction: element `e` is the line `(e, e+1)`. */
  lemma ElementLine(n0: nat, e: nat)
    requires n0 >= 2 && e < n0 - 1
    ensures e < |Elements([n0])| && Elements([n0])[e] == [e, e + 1]
  {
    assert CellShape([n0]) == [n0 - 1];
    Ravel1(n0 - 1, e);
    ElementCorner([n0], [e], 0);
    ElementCorner([n0], [e], 1);
    assert Shifted([e], Offset(1, 0)) == [e];
    assert Shifted([e], Offset(1, 1)) == [e + 1];
    Ravel1(n0, e);
    Ravel1(n0, e + 1);
    var row := Elements([n0])[e];
    assert |row| == 2;
  }

  lemma QuadCorner(n0: nat, n1: nat, i: nat, j: nat, c: nat, di: nat, dj: nat)
    requires n0 >= 2 && n1 >= 2 && i < n0 - 1 && j < n1 - 1 && c < 4
    requires Offset(2, c) == [di, dj]
    ensures i * (n1 - 1) + j < |Elements([n0, n1])|
    ensures Elements([n0, n1])[i * (n1 - 1) + j][c] == (i + di) * n1 + j + dj
  {
    var shape, cshape, idx, moved := [n0, n1], [n0 - 1, n1 - 1], [i, j], [i + di, j + dj];
    assert CellShape(shape) == cshape;
    assert Pow2(2) == 4;
    assert Within(idx, cshape);
    Ravel2(n0 - 1, n1 - 1, i, j);
    ElementCorner(shape, idx, c);
    assert Shifted(idx, Offset(2, c)) == moved;
    Ravel2(n0, n1, i + di, j + dj);
  }

  /** Two directions: element (i, j) is the counter-clockwise quadrilateral of row-major node numbers. */
  lemma ElementQuad(n0: nat, n1: nat, i: nat, j: nat)
    requires n0 >= 2 && n1 >= 2 && i < n0 - 1 && j < n1 - 1
    ensures i * (n1 - 1) + j < |Elements([n0, n1])|
    ensures Elements([n0, n1])[i * (n1 - 1) + j]
         == [i * n1 + j, (i + 1) * n1 + j, (i + 1) * n1 + j + 1, i * n1 + j + 1]
  {
    QuadCorner(n0, n1, i, j, 0, 0, 0);
    QuadCorner(n0, n1, i, j, 1, 1, 0);
    QuadCorner(n0, n1, i, j, 2, 1, 1);
    QuadCorner(n0, n1, i, j, 3, 0, 1);
    var row := Elements([n0, n1])[i * (n1 - 1) + j];
    assert |row| == 4;
  }

  /** Row-major number of node (i, j, k) of a grid with `n1` and `n2` nodes along the last two directions. */
  function Node3(n1: nat, n2: nat, i: nat, j: nat, k: nat): nat {
    (i * n1 + j) * n2 + k
  }

  lemma HexCorner(n0: nat, n1: nat, n2: nat, i: nat, j: nat, k: nat, c: nat, di: nat, dj: nat, dk: nat)
    requires n0 >= 2 && n1 >= 2 && n2 >= 2 && i < n0 - 1 && j < n1 - 1 && k < n2 - 1 && c < 8
    requires Offset(3, c) == [di, dj, dk]
    ensures Node3(n1 - 1, n2 - 1, i, j, k) < |Elements([n0, n1, n2])|
    ensures Elements([n0, n1, n2])[Node3(n1 - 1, n2 - 1, i, j, k)][c] == Node3(n1, n2, i + di, j + dj, k + dk)
  {
    var shape, idx := [n0, n1, n2], [i, j, k];
    HexCellIndex(n0, n1, n2, i, j, k);
    ElementCorner(shape, idx, c);
    HexCornerNode(n0, n1, n2, i, j, k, c, di, dj, dk);
  }

  lemma HexCellIndex(n0: nat, n1: nat, n2: nat, i: nat, j: nat, k: nat)
    requires n0 >= 2 && n1 >= 2 && n2 >= 2 && i < n0 - 1 && j < n1 - 1 && k < n2 - 1
    ensures ValidNodeShape([n0, n1, n2]) && Within([i, j, k], CellShape([n0, n1, n2]))
    ensures Ravel(CellShape([n0, n1, n2]), [i, j, k]) == Node3(n1 - 1, n2 - 1, i, j, k)
  {
    assert CellShape([n0, n1, n2]) == [n0 - 1, n1 - 1, n2 - 1];
    Ravel3(n0 - 1, n1 - 1, n2 - 1, i, j, k);
  }

  lemma HexCornerNode(n0: nat, n1: nat, n2: nat, i: nat, j: nat, k: nat, c: nat, di: nat, dj: nat, dk: nat)
    requires c < 8 && Offset(3, c) == [di, dj, dk]
    ensures c < Pow2(3)
    ensures Ravel([n0, n1, n2], Shifted([i, j, k], Offset(3, c))) == Node3(n1, n2, i + di, j + dj, k + dk)
  {
    assert Pow2(3) == 8;
    assert Shifted([i, j, k], Offset(3, c)) == [i + di, j + dj, k + dk];
    Ravel3(n0, n1, n2, i + di, j + dj, k + dk);
  }

  /**
   * Three directions: corners 0-3 are the counter-clockwise face at `k`, corners 4-7 the same
   * face at `k + 1`.
   */
  lemma ElementHex(n0: nat, n1: nat, n2: nat, i: nat, j: nat, k: nat)
    requires n0 >= 2 && n1 >= 2 && n2 >= 2 && i < n0 - 1 && j < n1 - 1 && k < n2 - 1
    ensures Node3(n1 - 1, n2 - 1, i, j, k) < |Elements([n0, n1, n2])|
    ensures Elements([n0, n1, n2])[Node3(n1 - 1, n2 - 1, i, j, k)]
         == [Node3(n1, n2, i, j, k), Node3(n1, n2, i + 1, j, k),
             Node3(n1, n2, i + 1, j + 1, k), Node3(n1, n2, i, j + 1, k),
             Node3(n1, n2, i, j, k + 1), Node3(n1, n2, i + 1, j, k + 1),
             Node3(n1, n2, i + 1, j + 1, k + 1), Node3(n1, n2, i, j + 1, k + 1)]
  {
    HexCorner(n0, n1, n2, i, j, k, 0, 0, 0, 0);
    var row := Elements([n0, n1, n2])[Node3(n1 - 1, n2 - 1, i, j, k)];
    assert Pow2(3) == 8;
    forall c | 0 <= c < 8
      ensures row[c] == Node3(n1, n2, i + Offset(3, c)[0], j + Offset(3, c)[1], k + Offset(3, c)[2])
    {
      var off := Offset(3, c);
      HexCorner(n0, n1, n2, i, j, k, c, off[0], off[1], off[2]);
    }
    assert |row| == 8;
  }

  /* ---------------------------------------------------------------------------------------
   * Geometry emission: catalogue nodes and the skip rule
   * --------------------------------------------------------------------------------------- */

  /** Errors of the reader that this model covers. */
  datatype ReadError =
    | MissingTesselation                       // `node.tesselation` read before geometry was written
    | ComponentOutOfRange(component: nat)      // `raw[..., i]` beyond the promoted channels
    | GeometryUnavailable(basis: string, level: int)
    | UndefinedName(name: string)              // a Python `NameError`

  /**
   * A catalogue node: the canonical record of one physical patch. `knots` are the knot vectors
   * of the node's canonical object; the other fields are the attributes the reader attaches.
   */
  class CatalogueNode {
    const knots: Schedule
    var patchId: Option<nat>
    var lastWritten: int
    var tesselation: Option<Schedule>

    /** A freshly registered node, with the defaults given to its missing attributes. */
    constructor (knots: Schedule)
      ensures this.knots == knots
      ensures patchId == None && lastWritten == -1 && tesselation == None
    {
      this.knots := knots;
      patchId := None;
      lastWritten := -1;
      tesselation := None;
    }
  }

  /**
   * The writer's `update_geometry` as seen from the reader: it keeps a patch id it is given
   * and otherwise issues the next unused one, starting at 0.
   */
  class GeometrySink {
    var issued: nat

    constructor ()
      ensures issued == 0
    {
      issued := 0;
    }

    method UpdateGeometry(previous: Option<nat>) returns (id: nat)
      modifies this
      ensures id == (if previous.Some? then previous.value else old(issued))
      ensures issued == (if previous.Some? then old(issued) else old(issued) + 1)
    {
      if previous.Some? {
        id := previous.value;
      } else {
        id := issued;
        issued := issued + 1;
      }
    }
  }

  /** What one `update_geometry` call passes on: element rows, parametric dimension and the previous id. */
  datatype GeometryUpdate = GeometryUpdate(pid: nat, elements: seq<Cell>, pardim: nat, previous: Option<nat>)

  /** Patch `p` is the first patch of the level that resolves to its catalogue node. */
  predicate FirstOccurrence(nodes: seq<CatalogueNode>, p: nat)
    requires p < |nodes|
  {
    UnseenBefore(nodes, p, p)
  }

  /** None of the first `i` patches resolves to the node of patch `p`. */
  predicate UnseenBefore(nodes: seq<CatalogueNode>, p: nat, i: nat)
    requires p < |nodes| && i <= |nodes|
  {
    forall q :: 0 <= q < i ==> nodes[q] != nodes[p]
  }

  /** The update written for patch `p` of node knot vectors `knots`, whose node had id `previous`. */
  function UpdateRecord(p: nat, knots: Schedule, previous: Option<nat>): (u: GeometryUpdate)
    requires ValidNodeShape(ScheduleShape(knots))
    ensures u.pid == p && u.pardim == |knots| && u.previous == previous
  {
    GeometryUpdate(p, Elements(ScheduleShape(knots)), |knots|, previous)
  }

  /**
   * A node's state after geometry level `lid` was processed, given the level `last`, id `pid`
   * and tesselation `tess` it had before: if `last` was earlier, it now records `lid`, its
   * tesselation is its knot vectors and it has an id (the one it had, if any); otherwise
   * nothing changed.
   */
  predicate Settled(n: CatalogueNode, last: int, pid: Option<nat>, tess: Option<Schedule>, lid: int)
    reads n
  {
    SettledAt(n.knots, n.lastWritten, n.patchId, n.tesselation, last, pid, tess, lid)
  }

  /** `Settled` for a node with knot vectors `knots` now holding level `level`, id `id` and tesselation `t`. */
  predicate SettledAt(knots: Schedule, level: int, id: Option<nat>, t: Option<Schedule>, last: int, pid: Option<nat>,
                      tess: Option<Schedule>, lid: int)
  {
    if last < lid then
      level == lid && t == Some(knots) && id.Some? && (pid.Some? ==> id == pid)
    else
      level == last && t == tess && id == pid
  }

  /** A node still holds the level, id and tesselation it had before. */
  predicate AsBefore(n: CatalogueNode, last: int, pid: Option<nat>, tess: Option<Schedule>)
    reads n
  {
    n.lastWritten == last && n.tesselation == tess && n.patchId == pid
  }

  twostate predicate Processed(n: CatalogueNode, lid: int)
    reads n
  {
    Settled(n, old(n.lastWritten), old(n.patchId), old(n.tesselation), lid)
  }

  /** The body of `write_geometry` for one node that is written: record the level, tesselate, write. */
  method WriteNode(lid: int, p: nat, node: CatalogueNode, sink: GeometrySink) returns (u: GeometryUpdate)
    requires node.lastWritten < lid && ValidNodeShape(ScheduleShape(node.knots))
    modifies node, sink
    ensures u == UpdateRecord(p, node.knots, old(node.patchId))
    ensures Processed(node, lid)
  {
    node.lastWritten := lid;
    node.tesselation := Some(node.knots);
    var elements := BuildElements(ScheduleShape(node.knots));
    var previous := node.patchId;
    var id := sink.UpdateGeometry(previous);
    node.patchId := Some(id);
    u := GeometryUpdate(p, elements, |node.knots|, previous);
  }

  /**
   * One patch of `write_geometry`, whose node had level `last`, id `pid` and tesselation `tess`
   * before the call and was already visited (`seen`) or not: skipped if the node was written
   * at this level or later.
   */
  method VisitPatch(lid: int, p: nat, node: CatalogueNode, sink: GeometrySink, ghost seen: bool, ghost last: int,
                    ghost pid: Option<nat>, ghost tess: Option<Schedule>)
    returns (w: Option<GeometryUpdate>)
    requires ValidNodeShape(ScheduleShape(node.knots))
    requires seen ==> Settled(node, last, pid, tess, lid)
    requires !seen ==> AsBefore(node, last, pid, tess)
    modifies node, sink
    ensures w.Some? <==> !seen && last < lid
    ensures w.Some? ==> w.value == UpdateRecord(p, node.knots, pid)
    ensures Settled(node, last, pid, tess, lid)
  {
    if node.lastWritten >= lid {
      return None;
    }
    var u := WriteNode(lid, p, node, sink);
    return Some(u);
  }

  /**
   * `write_geometry` for level `lid`: `patchNodes[p]` is the catalogue node patch `p` resolves
   * to. A node whose `lastWritten` is at least `lid` is skipped; otherwise its tesselation is
   * set to its knot vectors, its elements are built and written, and it records `lid` and the
   * returned id. Entry `p` of the result is the update written for patch `p`, if any: only the
   * first patch of a node not yet written at this level writes.
   */
  method WriteGeometry(lid: int, patchNodes: seq<CatalogueNode>, sink: GeometrySink)
    returns (written: seq<Option<GeometryUpdate>>)
    requires forall n :: n in patchNodes ==> ValidNodeShape(ScheduleShape(n.knots))
    modifies (set n | n in patchNodes), sink
    ensures |written| == |patchNodes|
    ensures forall p :: 0 <= p < |patchNodes| ==>
      (written[p].Some? <==> old(patchNodes[p].lastWritten) < lid && FirstOccurrence(patchNodes, p))
    ensures forall p :: 0 <= p < |patchNodes| && written[p].Some? ==>
      written[p].value == UpdateRecord(p, patchNodes[p].knots, old(patchNodes[p].patchId))
    ensures forall n :: n in patchNodes ==> Processed(n, lid)
  {
    ghost var last0, pid0, tess0 := Levels(patchNodes), Ids(patchNodes), Tesselations(patchNodes);
    written := [];
    for i := 0 to |patchNodes|
      invariant |written| == i
      invariant WrittenUpTo(written, patchNodes, last0, pid0, lid)
      invariant Progress(patchNodes, last0, pid0, tess0, Levels(patchNodes), Ids(patchNodes), Tesselations(patchNodes), lid, i)
    {
      var w := PatchStep(lid, i, patchNodes, sink, last0, pid0, tess0, written);
      written := written + [w];
    }
    ghost var lv, ids, ts := Levels(patchNodes), Ids(patchNodes), Tesselations(patchNodes);
    forall n | n in patchNodes ensures Processed(n, lid) {
      var q :| 0 <= q < |patchNodes| && patchNodes[q] == n;
      assert SettledAt(n.knots, lv[q], ids[q], ts[q], last0[q], pid0[q], tess0[q], lid);
    }
  }

  /** The levels, ids and tesselations the nodes of the patches hold. */
  function Levels(nodes: seq<CatalogueNode>): (r: seq<int>)
    reads nodes
    ensures |r| == |nodes| && forall p :: 0 <= p < |nodes| ==> r[p] == nodes[p].lastWritten
  {
    seq(|nodes|, p requires 0 <= p < |nodes| reads nodes => nodes[p].lastWritten)
  }

  function Ids(nodes: seq<CatalogueNode>): (r: seq<Option<nat>>)
    reads nodes
    ensures |r| == |nodes| && forall p :: 0 <= p < |nodes| ==> r[p] == nodes[p].patchId
  {
    seq(|nodes|, p requires 0 <= p < |nodes| reads nodes => nodes[p].patchId)
  }

  function Tesselations(nodes: seq<CatalogueNode>): (r: seq<Option<Schedule>>)
    reads nodes
    ensures |r| == |nodes| && forall p :: 0 <= p < |nodes| ==> r[p] == nodes[p].tesselation
  {
    seq(|nodes|, p requires 0 <= p < |nodes| reads nodes => nodes[p].tesselation)
  }

  /**
   * With the nodes holding levels `lv`, ids `ids` and tesselations `ts`: patches before `i`
   * have been handled, and the node of every later patch not resolved by an earlier one still
   * holds what it held before the call (`last0`, `pid0`, `tess0`).
   */
  predicate Progress(nodes: seq<CatalogueNode>, last0: seq<int>, pid0: seq<Option<nat>>, tess0: seq<Option<Schedule>>,
                     lv: seq<int>, ids: seq<Option<nat>>, ts: seq<Option<Schedule>>, lid: int, i: nat)
  {
    i <= |nodes| == |last0| == |pid0| == |tess0| == |lv| == |ids| == |ts| &&
    (forall p :: 0 <= p < i ==> SettledAt(nodes[p].knots, lv[p], ids[p], ts[p], last0[p], pid0[p], tess0[p], lid)) &&
    (forall p :: i <= p < |nodes| && UnseenBefore(nodes, p, i) ==>
      lv[p] == last0[p] && ids[p] == pid0[p] && ts[p] == tess0[p])
  }

  /** The loop body of `write_geometry`, for patch `i`. */
  method PatchStep(lid: int, i: nat, patchNodes: seq<CatalogueNode>, sink: GeometrySink, ghost last0: seq<int>,
                   ghost pid0: seq<Option<nat>>, ghost tess0: seq<Option<Schedule>>,
                   ghost written: seq<Option<GeometryUpdate>>)
    returns (w: Option<GeometryUpdate>)
    requires i < |patchNodes| && |written| == i
    requires forall n :: n in patchNodes ==> ValidNodeShape(ScheduleShape(n.knots))
    requires Progress(patchNodes, last0, pid0, tess0, Levels(patchNodes), Ids(patchNodes), Tesselations(patchNodes), lid, i)
    requires WrittenUpTo(written, patchNodes, last0, pid0, lid)
    requires forall p, q :: 0 <= p < |patchNodes| && 0 <= q < |patchNodes| && patchNodes[p] == patchNodes[q] ==>
      last0[p] == last0[q] && pid0[p] == pid0[q] && tess0[p] == tess0[q]
    modifies patchNodes[i], sink
    ensures Progress(patchNodes, last0, pid0, tess0, Levels(patchNodes), Ids(patchNodes), Tesselations(patchNodes), lid, i + 1)
    ensures WrittenUpTo(written + [w], patchNodes, last0, pid0, lid)
  {
    var node := patchNodes[i];
    ghost var lv, ids, ts := Levels(patchNodes), Ids(patchNodes), Tesselations(patchNodes);
    ghost var seen := !FirstOccurrence(patchNodes, i);
    if seen {
      var q :| 0 <= q < i && patchNodes[q] == node;
      assert SettledAt(node.knots, lv[q], ids[q], ts[q], last0[q], pid0[q], tess0[q], lid);
    } else {
      assert UnseenBefore(patchNodes, i, i);
    }
    w := VisitPatch(lid, i, node, sink, seen, last0[i], pid0[i], tess0[i]);
    WrittenStep(written, patchNodes, last0, pid0, lid, w);
    ghost var lv', ids', ts' := Levels(patchNodes), Ids(patchNodes), Tesselations(patchNodes);
    assert forall p :: 0 <= p < |patchNodes| && patchNodes[p] != node ==>
      lv'[p] == lv[p] && ids'[p] == ids[p] && ts'[p] == ts[p];
    ProgressStep(patchNodes, last0, pid0, tess0, lv, ids, ts, lv', ids', ts', lid, i);
  }

  /** Settling the node of patch `i`, and no other node, advances `Progress` past patch `i`. */
  lemma ProgressStep(nodes: seq<CatalogueNode>, last0: seq<int>, pid0: seq<Option<nat>>, tess0: seq<Option<Schedule>>,
                     lv: seq<int>, ids: seq<Option<nat>>, ts: seq<Option<Schedule>>,
                     lv': seq<int>, ids': seq<Option<nat>>, ts': seq<Option<Schedule>>, lid: int, i: nat)
    requires Progress(nodes, last0, pid0, tess0, lv, ids, ts, lid, i) && i < |nodes|
    requires |lv'| == |ids'| == |ts'| == |nodes|
    requires forall p, q :: 0 <= p < |nodes| && 0 <= q < |nodes| && nodes[p] == nodes[q] ==>
      last0[p] == last0[q] && pid0[p] == pid0[q] && tess0[p] == tess0[q]
    requires forall p :: 0 <= p < |nodes| && nodes[p] == nodes[i] ==>
      lv'[p] == lv'[i] && ids'[p] == ids'[i] && ts'[p] == ts'[i]
    requires SettledAt(nodes[i].knots, lv'[i], ids'[i], ts'[i], last0[i], pid0[i], tess0[i], lid)
    requires forall p :: 0 <= p < |nodes| && nodes[p] != nodes[i] ==> lv'[p] == lv[p] && ids'[p] == ids[p] && ts'[p] == ts[p]
    ensures Progress(nodes, last0, pid0, tess0, lv', ids', ts', lid, i + 1)
  {
    forall p | 0 <= p < i + 1
      ensures SettledAt(nodes[p].knots, lv'[p], ids'[p], ts'[p], last0[p], pid0[p], tess0[p], lid)
    {
      if nodes[p] == nodes[i] {
        assert last0[p] == last0[i] && pid0[p] == pid0[i] && tess0[p] == tess0[i];
      }
    }
    forall p | i + 1 <= p < |nodes| && UnseenBefore(nodes, p, i + 1)
      ensures lv'[p] == last0[p] && ids'[p] == pid0[p] && ts'[p] == tess0[p]
    {
      assert nodes[p] != nodes[i] && UnseenBefore(nodes, p, i);
    }
  }

  /**
   * The first `|written|` patches were handled as `write_geometry` promises, against the
   * levels `last0` and ids `pid0` their nodes had before the call.
   */
  predicate WrittenUpTo(written: seq<Option<GeometryUpdate>>, nodes: seq<CatalogueNode>, last0: seq<int>,
                        pid0: seq<Option<nat>>, lid: int)
  {
    |written| <= |nodes| == |last0| == |pid0| &&
    forall p :: 0 <= p < |written| ==>
      (written[p].Some? <==> last0[p] < lid && FirstOccurrence(nodes, p)) &&
      (written[p].Some? ==>
         ValidNodeShape(ScheduleShape(nodes[p].knots)) && written[p].value == UpdateRecord(p, nodes[p].knots, pid0[p]))
  }

  lemma WrittenStep(written: seq<Option<GeometryUpdate>>, nodes: seq<CatalogueNode>, last0: seq<int>,
                    pid0: seq<Option<nat>>, lid: int, w: Option<GeometryUpdate>)
    requires WrittenUpTo(written, nodes, last0, pid0, lid) && |written| < |nodes|
    requires w.Some? <==> last0[|written|] < lid && FirstOccurrence(nodes, |written|)
    requires w.Some? ==>
      ValidNodeShape(ScheduleShape(nodes[|written|].knots)) && w.value == UpdateRecord(|written|, nodes[|written|].knots, pid0[|written|])
    ensures WrittenUpTo(written + [w], nodes, last0, pid0, lid)
  {
    var ws := written + [w];
    forall p | 0 <= p < |ws|
      ensures (ws[p].Some? <==> last0[p] < lid && FirstOccurrence(nodes, p)) &&
        (ws[p].Some? ==>
           ValidNodeShape(ScheduleShape(nodes[p].knots)) && ws[p].value == UpdateRecord(p, nodes[p].knots, pid0[p]))
    {
      if p < |written| {
        assert ws[p] == written[p];
      }
    }
  }

  /** Writing geometry again at a level not after the last one writes nothing. */
  method WriteGeometryTwice(lid: int, again: int, patchNodes: seq<CatalogueNode>, sink: GeometrySink)
    returns (first: seq<Option<GeometryUpdate>>, second: seq<Option<GeometryUpdate>>)
    requires again <= lid
    requires forall n :: n in patchNodes ==> ValidNodeShape(ScheduleShape(n.knots))
    modifies (set n | n in patchNodes), sink
    ensures |second| == |patchNodes| && forall p :: 0 <= p < |second| ==> second[p] == None
  {
    first := WriteGeometry(lid, patchNodes, sink);
    second := WriteGeometry(again, patchNodes, sink);
  }

  /* ---------------------------------------------------------------------------------------
   * Tesselation schedules
   * --------------------------------------------------------------------------------------- */

  function Reverse<T>(s: seq<T>): (r: seq<T>)
    ensures |r| == |s|
  {
    seq(|s|, i requires 0 <= i < |s| => s[|s| - 1 - i])
  }

  lemma ReverseReverse<T>(s: seq<T>)
    ensures Reverse(Reverse(s)) == s
  {
  }

  function FlipIf(flip: bool, t: seq<real>): seq<real> {
    if flip then Reverse(t) else t
  }

  /** An orientation of `n` directions: one flip flag per direction and `perm_inv` indexing the directions. */
  predicate ValidOrientation(n: nat, flip: seq<bool>, permInv: seq<nat>) {
    |flip| == n && |permInv| == n && forall q :: 0 <= q < n ==> permInv[q] < n
  }

  /** Direction `q` of the oriented schedule is original direction `permInv[q]`, reversed if flagged. */
  function Oriented(t: Schedule, flip: seq<bool>, permInv: seq<nat>): (r: Schedule)
    requires ValidOrientation(|t|, flip, permInv)
  {
    seq(|t|, q requires 0 <= q < |t| => FlipIf(flip[permInv[q]], t[permInv[q]]))
  }

  /**
   * `_tesselated_patch`: the node's tesselation with flagged directions reversed in place,
   * then permuted by `perm_inv`. Reading the tesselation of a node never written fails.
   */
  method TesselatedSchedule(node: CatalogueNode, flip: seq<bool>, permInv: seq<nat>)
    returns (r: Result<Schedule, ReadError>)
    requires node.tesselation.Some? ==> ValidOrientation(|node.tesselation.value|, flip, permInv)
    ensures node.tesselation.None? ==> r == Err(MissingTesselation)
    ensures node.tesselation.Some? ==> r == Ok(Oriented(node.tesselation.value, flip, permInv))
  {
    if node.tesselation.None? {
      return Err(MissingTesselation);
    }
    var tesselation := node.tesselation.value;
    var orig := tesselation;
    for i := 0 to |flip|
      invariant |orig| == |tesselation|
      invariant forall k :: 0 <= k < |orig| ==>
        orig[k] == (if k < i then FlipIf(flip[k], tesselation[k]) else tesselation[k])
    {
      if flip[i] {
        orig := orig[i := Reverse(orig[i])];
      }
    }
    var oriented := seq(|orig|, q requires 0 <= q < |orig| => orig[permInv[q]]);
    var spec := Oriented(tesselation, flip, permInv);
    assert |oriented| == |spec|;
    forall q | 0 <= q < |orig|
      ensures oriented[q] == spec[q]
    {
      var k := permInv[q];
      assert orig[k] == FlipIf(flip[k], tesselation[k]);
    }
    assert oriented == spec;
    r := Ok(oriented);
  }

  /** Orienting keeps the number of directions, and each direction keeps its number of samples. */
  lemma OrientedShape(t: Schedule, flip: seq<bool>, permInv: seq<nat>)
    requires ValidOrientation(|t|, flip, permInv)
    ensures |Oriented(t, flip, permInv)| == |t|
    ensures forall q :: 0 <= q < |t| ==> ScheduleShape(Oriented(t, flip, permInv))[q] == |t[permInv[q]]|
  {
  }

  /**
   * With `perm` the inverse of `perm_inv`, the original schedule is recovered from the oriented
   * one: direction `i` is oriented direction `perm[i]`, reversed back if flagged.
   */
  lemma OrientedRecoversOriginal(t: Schedule, flip: seq<bool>, permInv: seq<nat>, perm: seq<nat>, i: nat)
    requires ValidOrientation(|t|, flip, permInv)
    requires |perm| == |t| && forall k :: 0 <= k < |t| ==> perm[k] < |t| && permInv[perm[k]] == k
    requires i < |t|
    ensures t[i] == FlipIf(flip[i], Oriented(t, flip, permInv)[perm[i]])
  {
    if flip[i] {
      ReverseReverse(t[i]);
    }
  }

  /** The identity orientation leaves the schedule unchanged. */
  lemma OrientedIdentity(t: Schedule, flip: seq<bool>, permInv: seq<nat>)
    requires ValidOrientation(|t|, flip, permInv)
    requires forall q :: 0 <= q < |t| ==> !flip[q] && permInv[q] == q
    ensures Oriented(t, flip, permInv) == t
  {
  }

  /** The midpoints of consecutive samples, `[(a+b)/2 for a, b in zip(t[:-1], t[1:])]`. */
  function Midpoints(t: seq<real>): (m: seq<real>)
    ensures |m| == if |t| == 0 then 0 else |t| - 1
  {
    if |t| == 0 then [] else seq(|t| - 1, k requires 0 <= k < |t| - 1 => (t[k] + t[k + 1]) / 2.0)
  }

  predicate StrictlyIncreasing(t: seq<real>) {
    forall k :: 0 <= k < |t| - 1 ==> t[k] < t[k + 1]
  }

  /** Each midpoint lies strictly inside its knot span, so the midpoints increase too. */
  lemma MidpointsInSpans(t: seq<real>)
    requires StrictlyIncreasing(t)
    ensures forall k :: 0 <= k < |Midpoints(t)| ==> t[k] < Midpoints(t)[k] < t[k + 1]
    ensures StrictlyIncreasing(Midpoints(t))
  {
  }

  /** The schedule for a cell-valued field: the midpoints of every direction. */
  function CellSchedule(t: Schedule): (c: Schedule)
    ensures |c| == |t| && forall k :: 0 <= k < |t| ==> c[k] == Midpoints(t[k])
  {
    seq(|t|, k requires 0 <= k < |t| => Midpoints(t[k]))
  }

  /**
   * A cell-valued field is evaluated at one point per element: the grid of the cell schedule has
   * exactly as many points as the tesselation of the same schedule has elements.
   */
  lemma CellScheduleMatchesElements(t: Schedule)
    requires ValidNodeShape(ScheduleShape(t))
    ensures ScheduleShape(CellSchedule(t)) == CellShape(ScheduleShape(t))
    ensures Prod(ScheduleShape(CellSchedule(t))) == |Elements(ScheduleShape(t))|
  {
    var shape := ScheduleShape(t);
    var cshape := ScheduleShape(CellSchedule(t));
    forall k | 0 <= k < |t|
      ensures cshape[k] == CellShape(shape)[k]
    {
      assert shape[k] == |t[k]| >= 2;
      assert CellSchedule(t)[k] == Midpoints(t[k]);
    }
    assert cshape == CellShape(shape);
  }

  /* ---------------------------------------------------------------------------------------
   * Channels and per-component fields
   * --------------------------------------------------------------------------------------- */

  /** `set_dimension(d)`: the first `d` channels, padded with zeros. */
  function SetDimension(cp: seq<real>, d: nat): (r: seq<real>)
    ensures |r| == d
  {
    seq(d, k requires 0 <= k < d => if k < |cp| then cp[k] else 0.0)
  }

  /** Number of channels a point of `ncomps` components has after promotion in `_tesselate`. */
  function Channels(ncomps: nat, vectorize: bool): nat {
    if ncomps == 1 && vectorize then 3 else if ncomps > 1 then 3 else ncomps
  }

  /**
   * Promotion of one control point in `_tesselate`: a scalar that is to be shown as a vector is
   * moved to the last of three channels, anything with two or more channels is made
   * three-dimensional, and a scalar otherwise stays as it is.
   */
  function Promoted(cp: seq<real>, vectorize: bool): (r: seq<real>)
    ensures |r| == Channels(|cp|, vectorize)
    ensures |cp| == 1 && vectorize ==> r == [0.0, 0.0, cp[0]]
    ensures |cp| > 1 ==> forall k :: 0 <= k < 3 ==> r[k] == (if k < |cp| then cp[k] else 0.0)
    ensures |cp| <= 1 && !vectorize ==> r == cp
  {
    if |cp| == 1 && vectorize then
      var p := SetDimension(cp, 3);
      var p := p[2 := p[0]];
      p[0 := 0.0]
    else if |cp| > 1 then SetDimension(cp, 3)
    else cp
  }

  datatype FieldKind = Scalar | Vector

  /** One `update_field` call: the name, the kind and the `cells` flag when one is passed. */
  datatype FieldUpdate = FieldUpdate(name: string, kind: FieldKind, cells: Option<bool>)

  /** The name of component `i` (0-based) of a field: `"{name}[{i+1}]"`. */
  function ComponentName(name: string, i: nat): string {
    name + "[" + NatToString(i + 1) + "]"
  }

  /** What `write_field` does for one patch: the `update_field` calls it makes, then the error it stops with, if any. */
  datatype FieldWrite = FieldWrite(calls: seq<FieldUpdate>, failure: Option<ReadError>)

  /**
   * The `update_field` calls of `write_field` for one patch: the whole field, then for a field of
   * several components one call per component, without the `cells` flag. Promotion keeps at most
   * three channels, so a field of more components makes the calls for the first three and then
   * fails on `raw[..., 3]`.
   */
  function FieldUpdates(name: string, ncomps: nat, cellValued: bool): FieldWrite
    requires ncomps >= 1
  {
    var channels := Channels(ncomps, false);
    var kind := if channels > 1 then Vector else Scalar;
    var whole := FieldUpdate(name, kind, Some(cellValued));
    var written := if ncomps <= 1 then 0 else if ncomps > channels then channels else ncomps;
    var components := seq(written, i requires 0 <= i < written => FieldUpdate(ComponentName(name, i), kind, None));
    FieldWrite([whole] + components, if ncomps > channels then Some(ComponentOutOfRange(channels)) else None)
  }

  lemma ComponentNameInjective(name: string, i: nat, j: nat)
    requires ComponentName(name, i) == ComponentName(name, j)
    ensures i == j
  {
    var a, b := ComponentName(name, i), ComponentName(name, j);
    assert NatToString(i + 1) == a[|name| + 1..|a| - 1];
    assert NatToString(j + 1) == b[|name| + 1..|b| - 1];
    NatToStringInjective(i + 1, j + 1);
  }

  /**
   * A field of one component gives one scalar update carrying the `cells` flag; a field of two or
   * more gives a vector update followed by one update per component, named `name[1]`,
   * `name[2]`, ..., all names different. Past three components the calls stop after `name[3]`
   * and the write fails on the fourth component.
   */
  lemma FieldUpdatesNaming(name: string, ncomps: nat, cellValued: bool)
    requires ncomps >= 1
    ensures var w := FieldUpdates(name, ncomps, cellValued);
      && (w.failure.Some? <==> ncomps > 3)
      && (w.failure.Some? ==> w.failure.value == ComponentOutOfRange(3))
      && |w.calls| == (if ncomps == 1 then 1 else if ncomps > 3 then 4 else ncomps + 1)
      && w.calls[0] == FieldUpdate(name, if ncomps == 1 then Scalar else Vector, Some(cellValued))
      && (forall i :: 1 <= i < |w.calls| ==> w.calls[i] == FieldUpdate(ComponentName(name, i - 1), Vector, None))
      && (forall i, j :: 0 <= i < j < |w.calls| ==> w.calls[i].name != w.calls[j].name)
  {
    var us := FieldUpdates(name, ncomps, cellValued).calls;
    forall i, j | 0 <= i < j < |us|
      ensures us[i].name != us[j].name
    {
      if i == 0 {
        assert |us[j].name| > |name|;
      } else if us[i].name == us[j].name {
        ComponentNameInjective(name, i - 1, j - 1);
      }
    }
  }

  /* ---------------------------------------------------------------------------------------
   * Basis levels
   * --------------------------------------------------------------------------------------- */

  /**
   * The last entry of `updates` that is at most `level`, found by scanning `updates[::-1]`:
   * every entry after it is above `level`, and there is none exactly when all entries are.
   */
  function LastAtMost(updates: seq<int>, level: int): (r: Option<int>)
    ensures r.None? <==> forall p :: 0 <= p < |updates| ==> updates[p] > level
    ensures r.Some? ==> (r.value <= level &&
      exists p :: 0 <= p < |updates| && updates[p] == r.value &&
        forall q :: p < q < |updates| ==> updates[q] > level)
  {
    if |updates| == 0 then None
    else if updates[|updates| - 1] <= level then Some(updates[|updates| - 1])
    else LastAtMost(updates[..|updates| - 1], level)
  }

  predicate Increasing(updates: seq<int>) {
    forall p, q :: 0 <= p < q < |updates| ==> updates[p] < updates[q]
  }

  /** Since updates are recorded in increasing level order, the level found is the latest update at or before `level`. */
  lemma LastAtMostIsLatest(updates: seq<int>, level: int)
    requires Increasing(updates)
    requires LastAtMost(updates, level).Some?
    ensures forall u :: u in updates && u <= level ==> u <= LastAtMost(updates, level).value
  {
    var l := LastAtMost(updates, level).value;
    var p :| 0 <= p < |updates| && updates[p] == l && forall q :: p < q < |updates| ==> updates[q] > level;
    forall u | u in updates && u <= level
      ensures u <= l
    {
      var k :| 0 <= k < |updates| && updates[k] == u;
      assert k <= p;
    }
  }

  /** `basis_level` as written: its error message names `index`, which is not defined there. */
  function BasisLevelAsWritten(updates: seq<int>, level: int, basis: string): (r: Result<int, ReadError>)
    ensures r.Err? <==> forall p :: 0 <= p < |updates| ==> updates[p] > level
    ensures r.Err? ==> r.error == UndefinedName("index")
  {
    match LastAtMost(updates, level)
    case Some(l) => Ok(l)
    case None => Err(UndefinedName("index"))
  }

  /** `basis_level` with the error it evidently means to raise: geometry of `basis` unavailable at `level`. */
  function BasisLevel(updates: seq<int>, level: int, basis: string): (r: Result<int, ReadError>)
    ensures r.Err? <==> forall p :: 0 <= p < |updates| ==> updates[p] > level
    ensures r.Err? ==> r.error == GeometryUnavailable(basis, level)
    ensures r.Ok? ==> r.value <= level
    ensures r.Ok? ==> exists p :: 0 <= p < |updates| && updates[p] == r.value &&
                        forall q :: p < q < |updates| ==> updates[q] > level
  {
    match LastAtMost(updates, level)
    case Some(l) => Ok(l)
    case None => Err(GeometryUnavailable(basis, level))
  }

  /** Without an update at or before the level, the as-written search raises a `NameError` instead. */
  lemma BasisLevelAsWrittenMisreports()
    ensures BasisLevelAsWritten([2], 1, "geometry") == Err(UndefinedName("index"))
    ensures BasisLevel([2], 1, "geometry") == Err(GeometryUnavailable("geometry", 1))
  {
  }
}
