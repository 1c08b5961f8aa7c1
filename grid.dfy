/**
 * Index arithmetic of structured grids: row-major flattening of multi-indices (NumPy's
 * `ravel_multi_index` over a C-ordered shape), the cell-origin enumeration of
 * `itertools.product` over per-axis ranges (last axis fastest), the corner pattern of
 * lines, quadrilaterals and hexahedra, node maps, and `structured_cells`.
 */
module Grid {

  type Shape = seq<nat>
  type Index = seq<nat>
  type Cell = seq<int>

  /** A node numbering over a grid of multi-indices (an `int` array indexed by tuples). */
  type NodeMap = Index -> int

  predicate Positive(s: Shape) {
    forall k :: 0 <= k < |s| ==> s[k] > 0
  }

  /** A cell shape the corner pattern exists for: one to three axes, each at least one cell. */
  predicate ValidCellShape(cs: Shape) {
    1 <= |cs| <= 3 && Positive(cs)
  }

  function Prod(s: Shape): nat {
    if |s| == 0 then 1 else Prod(s[..|s| - 1]) * s[|s| - 1]
  }

  predicate Within(idx: Index, s: Shape) {
    |idx| == |s| && forall k :: 0 <= k < |s| ==> idx[k] < s[k]
  }

  /** Row-major flat position of `idx` in an array of shape `s`. */
  function Ravel(s: Shape, idx: Index): nat
    requires |idx| == |s|
  {
    if |s| == 0 then 0 else Ravel(s[..|s| - 1], idx[..|idx| - 1]) * s[|s| - 1] + idx[|idx| - 1]
  }

  /** The `e`-th multi-index of `itertools.product(range(s[0]), ..., range(s[d-1]))`. */
  function Unravel(s: Shape, e: nat): (idx: Index)
    requires |s| >= 1 && Positive(s)
    ensures |idx| == |s|
  {
    if |s| == 1 then [e] else Unravel(s[..|s| - 1], e / s[|s| - 1]) + [e % s[|s| - 1]]
  }

  lemma DivModOf(q: nat, r: nat, m: nat)
    requires r < m
    ensures (q * m + r) / m == q && (q * m + r) % m == r
  {
    var x := q * m + r;
    var d, k := x / m, x % m;
    assert m * d + k == m * q + r;
    if d > q {
      assert m * d >= m * (q + 1) by { MulMono(q + 1, d, m); }
    } else if d < q {
      assert m * q >= m * (d + 1) by { MulMono(d + 1, q, m); }
    }
  }

  lemma MulMono(a: int, b: int, m: nat)
    requires a <= b
    ensures m * a <= m * b
  {
    assert m * b - m * a == m * (b - a);
  }

  lemma DivBelow(e: nat, p: nat, m: nat)
    requires m > 0 && e < p * m
    ensures e / m < p
  {
    if e / m >= p {
      MulMono(p, e / m, m);
    }
  }

  /** Every position of an array of shape `s` holds a multi-index within `s`. */
  lemma {:induction false} UnravelWithin(s: Shape, e: nat)
    requires |s| >= 1 && Positive(s) && e < Prod(s)
    ensures Within(Unravel(s, e), s)
  {
    if |s| > 1 {
      var init, last := s[..|s| - 1], s[|s| - 1];
      DivBelow(e, Prod(init), last);
      UnravelWithin(init, e / last);
    }
  }

  /** Flattening a multi-index within `s` gives a position of the array. */
  lemma {:induction false} RavelBound(s: Shape, idx: Index)
    requires Within(idx, s)
    ensures Ravel(s, idx) < Prod(s)
  {
    if |s| > 0 {
      var init, last := s[..|s| - 1], s[|s| - 1];
      var head := idx[..|idx| - 1];
      assert Within(head, init);
      RavelBound(init, head);
      RowBound(Ravel(init, head), Prod(init), idx[|idx| - 1], last);
    }
  }

  /** A row below `p` and a column below `last` flatten to a position below `p * last`. */
  lemma RowBound(r: nat, p: nat, x: nat, last: nat)
    requires r < p && x < last
    ensures r * last + x < p * last
  {
    MulMono(r, p - 1, last);
    assert last * (p - 1) == last * p - last;
  }

  /** Unravel is a left inverse of Ravel: positions and multi-indices correspond one to one. */
  lemma {:induction false} RavelUnravel(s: Shape, e: nat)
    requires |s| >= 1 && Positive(s)
    ensures Ravel(s, Unravel(s, e)) == e
  {
    var idx := Unravel(s, e);
    if |s| == 1 {
      assert s[..0] == [] && idx[..0] == [];
    } else {
      var init, last := s[..|s| - 1], s[|s| - 1];
      assert idx[..|idx| - 1] == Unravel(init, e / last);
      RavelUnravel(init, e / last);
    }
  }

  lemma {:induction false} UnravelRavel(s: Shape, idx: Index)
    requires |s| >= 1 && Positive(s) && Within(idx, s)
    ensures Unravel(s, Ravel(s, idx)) == idx
  {
    var init, last := s[..|s| - 1], s[|s| - 1];
    var head := idx[..|idx| - 1];
    if |s| == 1 {
      assert head == [] && init == [];
      assert idx == [idx[0]];
    } else {
      DivModOf(Ravel(init, head), idx[|idx| - 1], last);
      UnravelRavel(init, head);
      assert idx == head + [idx[|idx| - 1]];
    }
  }

  function Pow2(d: nat): nat {
    if d == 0 then 1 else 2 * Pow2(d - 1)
  }

  /**
   * Offset of corner `c` from the cell origin: one axis (c); two axes, counter-clockwise
   * (0,0) (1,0) (1,1) (0,1); three axes, that face at the origin's third coordinate
   * followed by the same face one step further along the third axis.
   */
  function Offset(d: nat, c: nat): (off: Index)
    requires 1 <= d <= 3 && c < Pow2(d)
    ensures |off| == d && forall k :: 0 <= k < d ==> off[k] <= 1
  {
    var quad := [[0, 0], [1, 0], [1, 1], [0, 1]];
    if d == 1 then [c]
    else if d == 2 then quad[c]
    else if c < 4 then quad[c] + [0]
    else quad[c - 4] + [1]
  }

  function Shifted(idx: Index, off: Index): (r: Index)
    requires |idx| == |off|
    ensures |r| == |idx|
  {
    seq(|idx|, k requires 0 <= k < |idx| => idx[k] + off[k])
  }

  /** The node shape of a grid of cells: one node more than cells along each axis. */
  function NodeShape(cs: Shape): (s: Shape)
    ensures |s| == |cs|
  {
    seq(|cs|, k requires 0 <= k < |cs| => cs[k] + 1)
  }

  /** Nodes numbered by their row-major position, as `np.ravel_multi_index` does. */
  function RavelMap(s: Shape): NodeMap {
    idx => if |idx| == |s| then Ravel(s, idx) else 0
  }

  /** Corner `c` of cell `e`, looked up through the node map. */
  function Corner(cs: Shape, nm: NodeMap, e: nat, c: nat): int
    requires ValidCellShape(cs) && c < Pow2(|cs|)
  {
    nm(Shifted(Unravel(cs, e), Offset(|cs|, c)))
  }

  /**
   * `structured_cells(cs, d, nodemap)`: one row per cell in product order, holding the
   * node-map numbers of its 2^d corners in the corner pattern above.
   */
  function StructuredCells(cs: Shape, nm: NodeMap): (cells: seq<Cell>)
    requires ValidCellShape(cs)
    ensures |cells| == Prod(cs)
    ensures forall e :: 0 <= e < |cells| ==> |cells[e]| == Pow2(|cs|)
  {
    seq(Prod(cs), e requires 0 <= e < Prod(cs) => seq(Pow2(|cs|), c requires 0 <= c < Pow2(|cs|) => Corner(cs, nm, e, c)))
  }

  /** `structured_cells(cs, d)` without a node map: corners numbered row-major over the nodes. */
  function Cells(cs: Shape): (cells: seq<Cell>)
    requires ValidCellShape(cs)
  {
    StructuredCells(cs, RavelMap(NodeShape(cs)))
  }

  /** The cell with origin `idx` is row `Ravel(cs, idx)`; its corner `c` is the node at `idx + Offset(c)`. */
  lemma CellAtOrigin(cs: Shape, nm: NodeMap, idx: Index, c: nat)
    requires ValidCellShape(cs) && Within(idx, cs) && c < Pow2(|cs|)
    ensures Ravel(cs, idx) < |StructuredCells(cs, nm)|
    ensures StructuredCells(cs, nm)[Ravel(cs, idx)][c] == nm(Shifted(idx, Offset(|cs|, c)))
  {
    RavelBound(cs, idx);
    UnravelRavel(cs, idx);
  }

  /** Every corner of every cell is a node of the grid: `0 <= corner < Prod(NodeShape(cs))`. */
  lemma CellsBounded(cs: Shape)
    requires ValidCellShape(cs)
    ensures forall e, c :: 0 <= e < |Cells(cs)| && 0 <= c < |Cells(cs)[e]| ==>
      0 <= Cells(cs)[e][c] < Prod(NodeShape(cs))
  {
    forall e, c | 0 <= e < |Cells(cs)| && 0 <= c < |Cells(cs)[e]|
      ensures 0 <= Cells(cs)[e][c] < Prod(NodeShape(cs))
    {
      UnravelWithin(cs, e);
      var idx := Shifted(Unravel(cs, e), Offset(|cs|, c));
      assert Within(idx, NodeShape(cs));
      RavelBound(NodeShape(cs), idx);
    }
  }

  /** Closed forms of `Ravel` in one, two and three axes. */
  lemma Ravel1(s0: nat, i: nat)
    ensures Ravel([s0], [i]) == i
  {
    assert [s0][..0] == [] && [i][..0] == [];
  }

  lemma Ravel2(s0: nat, s1: nat, i: nat, j: nat)
    ensures Ravel([s0, s1], [i, j]) == i * s1 + j
  {
    assert [s0, s1][..1] == [s0] && [i, j][..1] == [i];
    Ravel1(s0, i);
  }

  lemma Ravel3(s0: nat, s1: nat, s2: nat, i: nat, j: nat, k: nat)
    ensures Ravel([s0, s1, s2], [i, j, k]) == (i * s1 + j) * s2 + k
  {
    assert [s0, s1, s2][..2] == [s0, s1] && [i, j, k][..2] == [i, j];
    Ravel2(s0, s1, i, j);
  }

  lemma Prod2(a: nat, b: nat)
    ensures Prod([a, b]) == a * b
  {
    assert [a, b][..1] == [a] && [a][..0] == [];
    assert Prod([a]) == a;
  }

  lemma Prod3(a: nat, b: nat, c: nat)
    ensures Prod([a, b, c]) == a * b * c
  {
    assert [a, b, c][..2] == [a, b];
    Prod2(a, b);
  }

  /** Two axes: the cell with origin (i, j) is row `i * cs[1] + j`, with corner `c` at `(i, j) + Offset(c)`. */
  lemma CellAt2(cs: Shape, nm: NodeMap, i: nat, j: nat, c: nat)
    requires ValidCellShape(cs) && |cs| == 2 && i < cs[0] && j < cs[1] && c < 4
    ensures i * cs[1] + j < |StructuredCells(cs, nm)|
    ensures StructuredCells(cs, nm)[i * cs[1] + j][c] == nm([i + Offset(2, c)[0], j + Offset(2, c)[1]])
  {
    assert cs == [cs[0], cs[1]];
    Ravel2(cs[0], cs[1], i, j);
    CellAtOrigin(cs, nm, [i, j], c);
    assert Shifted([i, j], Offset(2, c)) == [i + Offset(2, c)[0], j + Offset(2, c)[1]];
  }

  /** Three axes: the cell with origin (i, j, k) is row `(i * cs[1] + j) * cs[2] + k`. */
  lemma CellAt3(cs: Shape, nm: NodeMap, i: nat, j: nat, k: nat, c: nat)
    requires ValidCellShape(cs) && |cs| == 3 && i < cs[0] && j < cs[1] && k < cs[2] && c < 8
    ensures (i * cs[1] + j) * cs[2] + k < |StructuredCells(cs, nm)|
    ensures StructuredCells(cs, nm)[(i * cs[1] + j) * cs[2] + k][c]
         == nm([i + Offset(3, c)[0], j + Offset(3, c)[1], k + Offset(3, c)[2]])
  {
    assert cs == [cs[0], cs[1], cs[2]];
    Ravel3(cs[0], cs[1], cs[2], i, j, k);
    CellAtOrigin(cs, nm, [i, j, k], c);
    assert Shifted([i, j, k], Offset(3, c)) == [i + Offset(3, c)[0], j + Offset(3, c)[1], k + Offset(3, c)[2]];
  }

  /* ---------------------------------------------------------------------------------------
   * Strided node maps
   * --------------------------------------------------------------------------------------- */

  /**
   * The position used along an axis of `n` nodes: along a periodic axis the last node is the
   * first one again.
   */
  function Wrap(i: nat, n: nat, periodic: bool): nat {
    if periodic && i + 1 == n then 0 else i
  }

  /** `sum(wrap(idx[k]) * strides[k])` over the axes. */
  function StridedSum(shape: Shape, strides: seq<int>, periodic: set<nat>, idx: Index): int
    requires |strides| == |shape| && |idx| == |shape|
  {
    if |shape| == 0 then 0
    else
      var k := |shape| - 1;
      StridedSum(shape[..k], strides[..k], periodic, idx[..k]) + Wrap(idx[k], shape[k], k in periodic) * strides[k]
  }

  /**
   * `nodemap(shape, strides, periodic, init)`: node `idx` is numbered
   * `init + sum(wrap(idx[k]) * strides[k])`, whatever the sign of the strides.
   */
  function StridedMap(shape: Shape, strides: seq<int>, periodic: set<nat>, init: int): NodeMap
    requires |strides| == |shape|
  {
    idx => if |idx| == |shape| then init + StridedSum(shape, strides, periodic, idx) else 0
  }

  lemma StridedMap2(n0: nat, n1: nat, s0: int, s1: int, periodic: set<nat>, init: int, i: nat, j: nat)
    ensures StridedMap([n0, n1], [s0, s1], periodic, init)([i, j])
         == init + Wrap(i, n0, 0 in periodic) * s0 + Wrap(j, n1, 1 in periodic) * s1
  {
    assert [n0, n1][..1] == [n0] && [s0, s1][..1] == [s0] && [i, j][..1] == [i];
    assert [n0][..0] == [] && [s0][..0] == [] && [i][..0] == [];
    assert StridedSum([n0], [s0], periodic, [i]) == Wrap(i, n0, 0 in periodic) * s0;
    assert StridedSum([n0, n1], [s0, s1], periodic, [i, j])
        == StridedSum([n0], [s0], periodic, [i]) + Wrap(j, n1, 1 in periodic) * s1;
  }

  lemma StridedMap3(n0: nat, n1: nat, n2: nat, s0: int, s1: int, s2: int, periodic: set<nat>, init: int,
                    i: nat, j: nat, k: nat)
    ensures StridedMap([n0, n1, n2], [s0, s1, s2], periodic, init)([i, j, k])
         == init + Wrap(i, n0, 0 in periodic) * s0 + Wrap(j, n1, 1 in periodic) * s1 + Wrap(k, n2, 2 in periodic) * s2
  {
    assert [n0, n1, n2][..2] == [n0, n1] && [s0, s1, s2][..2] == [s0, s1] && [i, j, k][..2] == [i, j];
    StridedMap2(n0, n1, s0, s1, periodic, init, i, j);
    assert StridedSum([n0, n1, n2], [s0, s1, s2], periodic, [i, j, k])
        == StridedSum([n0, n1], [s0, s1], periodic, [i, j]) + Wrap(k, n2, 2 in periodic) * s2;
  }

  /** Cells whose node map stays in `[lo, hi)` on the node grid have every corner in `[lo, hi)`. */
  lemma StructuredCellsBounded(cs: Shape, nm: NodeMap, lo: int, hi: int)
    requires ValidCellShape(cs)
    requires forall idx :: Within(idx, NodeShape(cs)) ==> lo <= nm(idx) < hi
    ensures AllWithin(StructuredCells(cs, nm), lo, hi)
  {
    forall e, c | 0 <= e < |StructuredCells(cs, nm)| && 0 <= c < |StructuredCells(cs, nm)[e]|
      ensures lo <= StructuredCells(cs, nm)[e][c] < hi
    {
      UnravelWithin(cs, e);
      assert Within(Shifted(Unravel(cs, e), Offset(|cs|, c)), NodeShape(cs));
    }
  }

  /** Every row has `w` corners. */
  predicate AllWidth(cells: seq<Cell>, w: nat) {
    forall e :: 0 <= e < |cells| ==> |cells[e]| == w
  }

  /** Every corner of every row lies in `[lo, hi)`. */
  predicate AllWithin(cells: seq<Cell>, lo: int, hi: int) {
    forall e, c :: 0 <= e < |cells| && 0 <= c < |cells[e]| ==> lo <= cells[e][c] < hi
  }

  lemma AllWidthConcat(a: seq<Cell>, b: seq<Cell>, w: nat)
    requires AllWidth(a, w) && AllWidth(b, w)
    ensures AllWidth(a + b, w)
  {
  }

  lemma AllWithinConcat(a: seq<Cell>, b: seq<Cell>, lo: int, hi: int)
    requires AllWithin(a, lo, hi) && AllWithin(b, lo, hi)
    ensures AllWithin(a + b, lo, hi)
  {
    forall e, c | 0 <= e < |a + b| && 0 <= c < |(a + b)[e]|
      ensures lo <= (a + b)[e][c] < hi
    {
      if e >= |a| {
        assert (a + b)[e] == b[e - |a|];
      }
    }
  }
}
