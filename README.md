# Index bookkeeping of the SISO / IFEM-to-VT converter

This project models, in Dafny, the integer and sequence bookkeeping at the core of the
converter. It covers five parts:

- **Spline-patch reader** (`ifem_to_vt/reader.py`):
  - element connectivity of a tesselated patch of one to three parametric directions;
  - the per-catalogue-node `last_written` / `patchid` / `tesselation` record that decides
    whether a patch's geometry is written again;
  - re-orientation of a tesselation schedule by flip flags and `perm_inv`;
  - midpoint schedules for cell-valued fields, and channel promotion;
  - naming of per-component field updates;
  - the `basis_level` search.
- **WRF reader** (`ifem_to_vt/reader/wrf.py`):
  - structured cell shapes;
  - classification of variables by their dimension names, and removal of `_stag`;
  - the unstructured meshes of the periodic (global) mapping: a structured block, a longitude
    seam and two pole caps collapsing onto the synthetic pole nodes `nplanar` and
    `nplanar + 1`. In the volumetric case this happens once per layer, after each layer's
    node numbers are shifted past the poles of the layers below.
- **Base writer** (`siso/writer/writer.py`): the step / geometry / field protocol, guarded by
  assertions on `stepid`, `step_finalized` and `geometry_finalized`, and `make_filename`.
- **VTF writer** (`ifem_to_vt/writer/vtf.py`):
  - the step list;
  - the append-or-replace list of geometry blocks and the `dirty_geometry` flag;
  - per-field result blocks grouped by step, and the block type chosen on a field's first update;
  - the state-info labels.
- **VTK / VTU / PVD writers** (`siso/writer/vtk.py`):
  - the per-patch topology and field dictionaries;
  - concatenation of all topologies into one unstructured grid, with node offsets and corner-count prefixes;
  - the structured grid dimensions and the PVD time step.

Modules, one per file:

- `Wrappers`: `Option` and `Result`.
- `Strings`: prefix and suffix tests, `str(int)`, `rfind`.
- `Grid`: row-major ravel and unravel, the corner pattern, strided node maps, `structured_cells`.
- `OrderedMap`: an insertion-ordered dictionary, as Python's `dict` is.
- `Reader`, `Wrf`, `Writer`, `Vtf`, `Vtk`: one per source file.

Code that changes state in place is modelled imperatively:

- `write_geometry` mutates catalogue nodes: the class `Reader.CatalogueNode` and the method
  `Reader.WriteGeometry`.
- The mesh builders append blocks in sequence (the `Wrf` methods).
- The writers update fields and dictionaries: the classes `Writer.ProtocolWriter`,
  `Vtf.VtfWriter` and `Vtk.VtkWriter`.

Each such method is tied by its `ensures` to specification functions. The lemmas state the
properties of those functions.

## Assumptions about code outside the model

The helpers `structured_cells` and `nodemap` are imported from the `..util` module next to the
reader package, which is not part
of this model. They are modelled from their use (ifem_to_vt/reader/wrf.py:17, 242-298):

- `nodemap(shape, strides, periodic, init)` (`Grid.StridedMap`) numbers node `idx` as
  `init + Σ w(idx[k]) · strides[k]`, whatever the strides' signs.
- Along a periodic axis of `n` nodes, `w` maps the last index `n - 1` back to `0`; along any
  other axis `w` is the identity. Both periodic uses wrap the axis of `nlon + 1` nodes, so
  node `nlon` is node `0` again.
- `structured_cells(cs, d, nodemap)` (`Grid.StructuredCells`) has one row per cell in
  `itertools.product` order, with the corners in the pattern of reader.py:155-173, looked up
  through the node map. Without a node map it numbers nodes row-major, as reader.py does
  (`Grid.Cells`).

Other assumptions:

- `Reader.GeometrySink.UpdateGeometry`: the writer's `update_geometry`, as the reader sees it,
  returns the id it was given and otherwise the next unused id, counting from 0.
- `Reader.WriteGeometry`: the catalogue's `add(patch).node` lookup is external. The model takes
  the resolved node of each patch as input.
- `Vtf.VtfWriter.AddStep`: the base writer's `add_step` is not shown. It is assumed to advance
  `stepid` by one, like `step()` does in siso/writer/writer.py.

## Node numbering and protocol guards

- Node numbering is row-major (`np.ravel_multi_index` over `nodes.shape[:-1]`), so the last
  index varies fastest. On a 2×2 grid the one quadrilateral is `[0, 2, 3, 1]` in this
  numbering. With the first index varying fastest, the same quadrilateral would read
  `[0, 1, 3, 2]`. The corner order (i,j), (i+1,j), (i+1,j+1), (i,j+1) is the same either way.
  The model follows the row-major numbering of the code.
- The protocol has no separate `finalize_geometry` state. The base writer guards only
  `stepid`, `step_finalized` and `geometry_finalized`, and the model has exactly those guards
  (`Writer.Apply`).

## Model

| member | source | states |
|---|---|---|
| `Grid.RavelUnravel` | ifem_to_vt/reader.py:152-153 | the product order of cell origins is the inverse of row-major flattening: unravelling position e and ravelling back gives e |
| `Grid.UnravelRavel` | ifem_to_vt/reader.py:152-153 | ravelling a multi-index within the shape and unravelling gives it back, so positions and multi-indices correspond one to one |
| `Grid.UnravelWithin` | ifem_to_vt/reader.py:152-153 | every position below the element count is the origin of a cell inside the cell grid |
| `Grid.RavelBound` | ifem_to_vt/reader.py:160 | `ravel_multi_index` of an index within the shape is below the product of the extents |
| `Grid.StructuredCells` | ifem_to_vt/reader/wrf.py:242 | `structured_cells` has one row per cell (product of the cell extents) and 2^d corners per row |
| `Grid.CellAtOrigin` | ifem_to_vt/reader/wrf.py:246 | the cell with origin idx is row ravel(idx), and its corner c is the node map at idx + offset(c) |
| `Grid.CellsBounded` | ifem_to_vt/reader.py:158-173 | every corner of every row-major cell is a node of the grid: 0 <= corner < node count |
| `Grid.StridedMap2` | ifem_to_vt/reader/wrf.py:245 | a two-axis node map numbers (i, j) as init + w(i)·s0 + w(j)·s1, with periodic wrapping of the last index to 0 |
| `Grid.StridedMap3` | ifem_to_vt/reader/wrf.py:282 | the same closed form for three axes |
| `Grid.StructuredCellsBounded` | ifem_to_vt/reader/wrf.py:246 | cells looked up through a node map that stays in [lo, hi) on the node grid have every corner in [lo, hi) |
| `Reader.Elements` | ifem_to_vt/reader.py:152-154 | the element count is the product of (n_i - 1); each element has 2^d corners; every corner is below the node count |
| `Reader.BuildElements` | ifem_to_vt/reader.py:152-173 | the column-by-column fill of `eidxs` produces exactly `Elements(shape)` |
| `Reader.ElementCorner` | ifem_to_vt/reader.py:158-173 | corner c of the element at origin idx is the row-major number of node idx + offset(c) |
| `Reader.ElementLine` | ifem_to_vt/reader.py:155-157 | for one direction, element e is exactly (e, e+1) |
| `Reader.ElementQuad` | ifem_to_vt/reader.py:158-163 | for two directions, element (i, j) is [i·n1+j, (i+1)·n1+j, (i+1)·n1+j+1, i·n1+j+1] |
| `Reader.ElementHex` | ifem_to_vt/reader.py:164-173 | for three directions, corners 0-3 are the counter-clockwise face at k and corners 4-7 the same face at k+1 |
| `Reader.CatalogueNode.constructor` | ifem_to_vt/reader.py:137-140 | a node's missing attributes default to `patchid = None` and `last_written = -1` |
| `Reader.GeometrySink.UpdateGeometry` | ifem_to_vt/reader.py:176-178 | the writer keeps a given patch id and otherwise issues the next unused one |
| `Reader.UpdateRecord` | ifem_to_vt/reader.py:176-178 | what one patch writes: its patch index, its parametric dimension and the node's previous id |
| `Reader.WriteNode` | ifem_to_vt/reader.py:145-178 | a written node records the level, takes its knot vectors as its tesselation and gets an id, keeping the one it had |
| `Reader.VisitPatch` | ifem_to_vt/reader.py:142-145 | a patch writes geometry exactly when its node was not already visited at this level and its `last_written` is below `lid` |
| `Reader.WriteGeometry` | ifem_to_vt/reader.py:133-178 | over all patches of a level: patch p writes exactly when its node's `last_written` was below `lid` and p is the first patch of that node; every node ends up settled at `lid` |
| `Reader.WriteGeometryTwice` | ifem_to_vt/reader.py:142-144 | writing geometry again at a level not after the previous one writes nothing |
| `Reader.ProgressStep` | ifem_to_vt/reader.py:134-178 | handling patch i, and touching no other node, advances the loop's record of handled patches by one |
| `Reader.TesselatedSchedule` | ifem_to_vt/reader.py:73-84 | the oriented schedule at position q is the node's direction `perm_inv[q]`, reversed if that direction's flip flag is set; reading a node that was never written fails |
| `Reader.OrientedShape` | ifem_to_vt/reader.py:80-83 | orienting keeps the number of directions, and position q has as many samples as direction `perm_inv[q]` |
| `Reader.OrientedRecoversOriginal` | ifem_to_vt/reader.py:76-83 | with `perm` the inverse permutation, every original direction is recovered from the oriented schedule |
| `Reader.OrientedIdentity` | ifem_to_vt/reader.py:76-83 | the identity orientation leaves the schedule unchanged |
| `Reader.Midpoints` | ifem_to_vt/reader.py:93-96 | a direction of n samples has n - 1 midpoints |
| `Reader.MidpointsInSpans` | ifem_to_vt/reader.py:93-96 | midpoint k lies strictly between samples k and k+1, so the midpoints increase |
| `Reader.CellSchedule` | ifem_to_vt/reader.py:93-96 | every direction of the cell schedule is the midpoints of that direction |
| `Reader.CellScheduleMatchesElements` | ifem_to_vt/reader.py:87-96 | a cell-valued field is evaluated at exactly as many points as the tesselation has elements |
| `Reader.Promoted` | ifem_to_vt/reader.py:101-106 | a vectorized scalar becomes [0, 0, value]; two or more channels are cut or padded to three; other scalars stay as they are |
| `Reader.FieldUpdatesNaming` | ifem_to_vt/reader.py:123-131 | one component gives one scalar update with the `cells` flag; two or more give a vector update followed by `name[1]`, `name[2]`, ..., all names distinct; past three components, promotion has kept only three channels, so the calls stop after `name[3]` and the write then fails on the fourth component |
| `Reader.ComponentNameInjective` | ifem_to_vt/reader.py:131 | different component indices give different names |
| `Reader.LastAtMost` | ifem_to_vt/reader.py:196 | the search returns nothing exactly when every update is above the level; otherwise it returns an update at or below the level with only larger updates after it |
| `Reader.LastAtMostIsLatest` | ifem_to_vt/reader.py:192-198 | with updates in increasing level order, the result is the latest update at or before the level |
| `Reader.BasisLevel` | ifem_to_vt/reader.py:192-198 | `basis_level` as intended: the last update at or below the level (every later update is above it), or an error naming the basis and the level exactly when none exists |
| `Reader.BasisLevelAsWritten` | ifem_to_vt/reader.py:195-198 | `basis_level` as written: when no update exists, it fails on the undefined name `index` |
| `Reader.BasisLevelAsWrittenMisreports` | ifem_to_vt/reader.py:198 | for updates [2] at level 1, the as-written search raises a `NameError` where the intended one reports the missing geometry |
| `Wrf.ShapesSpanNodes` | ifem_to_vt/reader/wrf.py:75-81 | `planar_shape` is (nlat-1, nlon-1) cells over nlat·nlon nodes; `volumetric_shape` is (nvert-1, nlat-1, nlon-1) over nvert·nlat·nlon nodes |
| `Wrf.VariableTypeExactly` | ifem_to_vt/reader/wrf.py:153-176 | planar exactly for [Time, south_north*, west_east*]; volumetric exactly for [Time, bottom_top*, south_north*, west_east*]; None otherwise |
| `Wrf.Unstaggered` | ifem_to_vt/reader/wrf.py:121-123 | a name ending in `_stag` loses exactly those five characters; any other name is unchanged |
| `Wrf.UnstaggeredRoundTrip` | ifem_to_vt/reader/wrf.py:121-123 | removing `_stag` undoes appending it |
| `Wrf.VariableAxes` | ifem_to_vt/reader/wrf.py:108-123 | time must be `Time`; in planar mode a volumetric variable drops bottom-top; every `_stag` axis is un-staggered and recorded in order, and no other axis changes |
| `Wrf.UnstaggerAxes` | ifem_to_vt/reader/wrf.py:120-123 | the loop strips `_stag` from every dimension name and un-staggers exactly the axes listed by `StaggeredAxes`, in enumeration order |
| `Wrf.StaggeredAxesExactly` | ifem_to_vt/reader/wrf.py:121-122 | an axis below n is un-staggered if and only if its name ends in `_stag` |
| `Wrf.StaggeredAxesIncreasing` | ifem_to_vt/reader/wrf.py:120 | the un-staggered axes come in increasing order, each below n |
| `Wrf.WrapIsNextLon` | ifem_to_vt/reader/wrf.py:251 | around a parallel, the periodic node map sends j+1 to the next longitude, wrapping nlon to 0 |
| `Wrf.PlanarSeamMapAt` | ifem_to_vt/reader/wrf.py:245 | the seam node map picks columns 0 and nlon-1 of each row, all regular nodes |
| `Wrf.SouthCapMapAt` | ifem_to_vt/reader/wrf.py:250-252 | south cap node map: row 1 is the pole `nplanar`, row 0 the southernmost parallel, wrapped |
| `Wrf.NorthCapMapAt` | ifem_to_vt/reader/wrf.py:257-259 | north cap node map with the negative stride -nlon-1: row 0 is the pole `nplanar+1`, row 1 the northernmost parallel, wrapped |
| `Wrf.PlanarInteriorCell` | ifem_to_vt/reader/wrf.py:242 | interior cell (i, j) is the counter-clockwise quad of row-major node numbers |
| `Wrf.PlanarInteriorBlock` | ifem_to_vt/reader/wrf.py:242 | the interior block has (nlat-1)(nlon-1) quads, all on regular nodes |
| `Wrf.PlanarSeamBlock` | ifem_to_vt/reader/wrf.py:245-247 | the seam block has nlat-1 quads joining the east and west columns of rows i and i+1 |
| `Wrf.SouthCapBlock` | ifem_to_vt/reader/wrf.py:249-254 | the south cap has nlon quads, each joining nodes j and j+1 of the first parallel to the south pole |
| `Wrf.NorthCapBlock` | ifem_to_vt/reader/wrf.py:256-261 | the north cap has nlon quads, each joining the north pole to nodes j and j+1 of the last parallel |
| `Wrf.PlanarInterior` | ifem_to_vt/reader/wrf.py:242 | the structured block, its size and its closed-form cells |
| `Wrf.PlanarSeamCells` | ifem_to_vt/reader/wrf.py:245-246 | the seam block, cell by cell |
| `Wrf.SouthCapCells` | ifem_to_vt/reader/wrf.py:250-253 | the south cap block, cell by cell |
| `Wrf.NorthCapCells` | ifem_to_vt/reader/wrf.py:257-260 | the north cap block, cell by cell |
| `Wrf.PeriodicPlanarMesh` | ifem_to_vt/reader/wrf.py:233-263 | (nlat-1)(nlon-1) + (nlat-1) + nlon + nlon quads in block order; each block has its closed form; every index is below nplanar + 2 |
| `Wrf.LayerShiftOfNode` | ifem_to_vt/reader/wrf.py:278 | node v = l·nplanar + r moves to v + 2l = l·(nplanar+2) + r |
| `Wrf.LayerShiftBound` | ifem_to_vt/reader/wrf.py:276-278 | every shifted node is below nvert·(nplanar+2) and never lands on a pole slot of its layer |
| `Wrf.ShiftLayers` | ifem_to_vt/reader/wrf.py:278 | the in-place shift keeps the number of cells and of corners per cell |
| `Wrf.ShiftedNode` | ifem_to_vt/reader/wrf.py:274-278 | a shifted row-major node (l, i, j) is l·nhorizontal + i·nlon + j |
| `Wrf.VolInteriorCorner` | ifem_to_vt/reader/wrf.py:274-278 | hexahedron (l, i, j) has corner c at the shifted node (l, i, j) + offset(c) |
| `Wrf.VolInterior` | ifem_to_vt/reader/wrf.py:274-278 | the shifted structured block: its size, bounds and closed form; no corner is a pole |
| `Wrf.VolSeamMapAt` | ifem_to_vt/reader/wrf.py:281-282 | the volumetric seam node map picks columns 0 and nlon-1 of each row of each layer |
| `Wrf.WrapIsMod` | ifem_to_vt/reader/wrf.py:288 | wrapping around a parallel of nlon + 1 indices is arithmetic modulo nlon |
| `Wrf.SnapRow` | ifem_to_vt/reader/wrf.py:289 | `(v - pole) // nh * nh + pole` sends a node of layer l to that layer's pole |
| `Wrf.VolSouthMapAt` | ifem_to_vt/reader/wrf.py:286-289 | volumetric south node map: row 1 of layer l is the pole l·(nplanar+2) + nplanar, row 0 the wrapped first parallel |
| `Wrf.VolNorthMapAt` | ifem_to_vt/reader/wrf.py:293-297 | volumetric north node map: row 0 of layer l is the pole l·(nplanar+2) + nplanar + 1, row 1 the wrapped last parallel |
| `Wrf.SouthNodeInLayer` | ifem_to_vt/reader/wrf.py:286-291 | south cap corners lie in layer l or l+1 and are the south pole exactly on the pole row |
| `Wrf.NorthNodeInLayer` | ifem_to_vt/reader/wrf.py:293-299 | north cap corners lie in layer l or l+1 and are the north pole exactly on the pole row |
| `Wrf.HexNodeInLayer` | ifem_to_vt/reader/wrf.py:278 | a structured hexahedron corner lies in its layer and is never a pole slot |
| `Wrf.VolSeamBlock` | ifem_to_vt/reader/wrf.py:281-284 | the volumetric seam has (nvert-1)(nlat-1) hexahedra, all in range |
| `Wrf.VolSouthBlock` | ifem_to_vt/reader/wrf.py:286-291 | the volumetric south cap has (nvert-1)·nlon hexahedra, all in range |
| `Wrf.VolNorthBlock` | ifem_to_vt/reader/wrf.py:293-299 | the volumetric north cap has (nvert-1)·nlon hexahedra, all in range |
| `Wrf.VolSeamCells` | ifem_to_vt/reader/wrf.py:281-284 | the volumetric seam block, cell by cell |
| `Wrf.VolSouthCells` | ifem_to_vt/reader/wrf.py:286-291 | the volumetric south cap, cell by cell |
| `Wrf.VolNorthCells` | ifem_to_vt/reader/wrf.py:293-299 | the volumetric north cap, cell by cell |
| `Wrf.PeriodicVolumetricMesh` | ifem_to_vt/reader/wrf.py:265-301 | structured, seam, south and north blocks in order; every index is below nvert·(nplanar+2); the structured block avoids pole slots; each pole corner is layer·(nplanar+2) + pole id |
| `Writer.Apply` | siso/writer/writer.py:81-112 | `step` needs `step_finalized` and advances `stepid` by one with both flags cleared; leaving it needs `geometry_finalized` and not `step_finalized`; `geometry()` clears and then sets `geometry_finalized`; `field()` needs it; `update_geometry` needs it false |
| `Writer.RunInvariant` | siso/writer/writer.py:71-99 | on every run from `__enter__` without a failed assertion: `stepid` is one less than the number of steps started; steps never overlap; `geometry_finalized` holds exactly when no step or geometry block was entered since the last geometry block ended |
| `Writer.StepNeedsGeometry` | siso/writer/writer.py:83-104 | a step left, or a field opened, before any geometry block trips an assertion |
| `Writer.OneStep` | siso/writer/writer.py:81-104 | a step with its geometry block, any number of geometry updates and fields succeeds and advances `stepid` by one |
| `Writer.RunUpdates` | siso/writer/writer.py:111-112 | any number of geometry updates inside an open geometry block leave the state unchanged |
| `Writer.ProtocolWriter.Enter` | siso/writer/writer.py:71-76 | `__enter__` sets `stepid = -1` and both flags |
| `Writer.ProtocolWriter.BeginStep` | siso/writer/writer.py:82-87 | entering a step, as `Apply` says, storing the step data |
| `Writer.ProtocolWriter.EndStep` | siso/writer/writer.py:91-93 | leaving a step, as `Apply` says |
| `Writer.ProtocolWriter.BeginGeometry` | siso/writer/writer.py:96-97 | entering `geometry()` clears `geometry_finalized` |
| `Writer.ProtocolWriter.EndGeometry` | siso/writer/writer.py:99 | leaving `geometry()` sets `geometry_finalized` |
| `Writer.ProtocolWriter.OpenField` | siso/writer/writer.py:101-104 | `field()` is legal exactly when the geometry is finalized |
| `Writer.ProtocolWriter.CheckUpdateGeometry` | siso/writer/writer.py:111-112 | `update_geometry` is legal exactly while the geometry is not finalized |
| `Writer.ProtocolWriter.Filename` | siso/writer/writer.py:60-69 | the corrected `make_filename` (`Writer.MakeFilename`, see Findings) on the writer's output path and step id: for the root `out.v2.vtu` it gives `out.v2-1.vtu` where the source gives `out.vtu` |
| `Writer.Suffix` | siso/writer/writer.py:69 | pathlib's suffix: empty, or a dot followed by no further dot, ending the name |
| `Writer.Stem` | siso/writer/writer.py:69 | stem followed by suffix is the name |
| `Writer.WithName` | siso/writer/writer.py:69 | `with_name` keeps the directory and fails on an empty name or a name holding `/` |
| `Writer.WithSuffix` | siso/writer/writer.py:69 | `with_suffix` replaces the name's suffix, and fails on an invalid suffix or an empty name |
| `Writer.MakeFilename` | siso/writer/writer.py:60-69 | the root unchanged unless both `with_step` and `multiple_timesteps` hold; otherwise stem + "-" + (stepid + indexing) + the original suffix |
| `Writer.MakeFilenameAsWritten` | siso/writer/writer.py:65-69 | the two-step rename as the source writes it: the root when no step is wanted, and a name in the same directory otherwise |
| `Writer.StepNameParts` | siso/writer/writer.py:69 | for a name with a suffix, the step name splits back into the numbered stem and the original suffix |
| `Writer.MakeFilenameInjective` | siso/writer/writer.py:60-69 | different step ids give different file names |
| `Writer.MakeFilenameAsWrittenAgrees` | siso/writer/writer.py:69 | when the stem has no dot after its first character, the source's rename gives the intended name |
| `Writer.MakeFilenameAsWrittenDropsStep` | siso/writer/writer.py:69 | for a name `a.b.c`, the source's rename gives `a.c` and drops the step number |
| `Writer.MakeFilenameAsWrittenCollides` | siso/writer/writer.py:69 | with root `out.v2.vtu`, steps 0 and 1 both go to `out.vtu`; the intended name of step 0 is `out.v2-1.vtu` |
| `Strings.NatToStringInjective` | siso/writer/writer.py:69 | decimal notation is injective |
| `Strings.RFindIsLast` | siso/writer/writer.py:69 | no occurrence of the character follows the one `rfind` reports |
| `Vtf.PlaceBlock` | ifem_to_vt/writer/vtf.py:99-115 | an existing id is replaced in place; the next unseen id is appended; any larger id fails the assertion; other entries are unchanged |
| `Vtf.PlaceBlockTwice` | ifem_to_vt/writer/vtf.py:112-115 | storing a patch twice keeps only the second pair of blocks |
| `Vtf.PlaceAllFresh` | ifem_to_vt/writer/vtf.py:101-113 | patches numbered 0, 1, ... in order fill the list with their blocks |
| `Vtf.PlaceAllKnown` | ifem_to_vt/writer/vtf.py:112-115 | a step that sends only known patches keeps the number of blocks |
| `Vtf.CollectElements` | ifem_to_vt/writer/vtf.py:120 | the comprehension `[e for _, e in geometry_blocks]` gives the element block of every patch, in patch order (`OrderedMap.Values` of the node/element pairs) |
| `Vtf.BlockTypeOf` | ifem_to_vt/writer/vtf.py:141-148 | scalar gives ScalarBlock, non-displacement VectorBlock, otherwise DisplacementBlock |
| `Vtf.RecordResultKeys` | ifem_to_vt/writer/vtf.py:141-148 | a field name is added once, at the end, and the field order is kept |
| `Vtf.RecordResultSame` | ifem_to_vt/writer/vtf.py:141-151 | a field's block type is fixed by its first update; each result block is appended, in order, under its step key |
| `Vtf.RecordResultOtherStep` | ifem_to_vt/writer/vtf.py:150-151 | other step keys of the field keep their result blocks |
| `Vtf.RecordResultOtherField` | ifem_to_vt/writer/vtf.py:141-151 | other fields are untouched |
| `Vtf.RecordStep` | ifem_to_vt/writer/vtf.py:141-151 | the membership test, the new `Field` and the `setdefault(...).append` leave exactly the dictionary `RecordResult` describes |
| `Vtf.Description` | ifem_to_vt/writer/vtf.py:80 | the label table knows exactly `value`, `frequency` and `time` |
| `Vtf.StateEntryOf` | ifem_to_vt/writer/vtf.py:77-81 | step index s uses number s+1 and its first value; `time` uses SetStepData, other keys SetModeData; empty data or an unknown key fails |
| `Vtf.StateEntryLabels` | ifem_to_vt/writer/vtf.py:79-80 | time steps are labelled Time; all others are modes labelled Eigenvalue or Frequency |
| `Vtf.VtfWriter.constructor` | ifem_to_vt/writer/vtf.py:44-50 | empty steps, blocks and fields, and geometry not dirty |
| `Vtf.VtfWriter.AddStep` | ifem_to_vt/writer/vtf.py:83-85 | each call appends one entry to `steps` and advances the step id |
| `Vtf.VtfWriter.UpdateGeometry` | ifem_to_vt/writer/vtf.py:93-116 | the append-or-replace of `PlaceBlock`, and `dirty_geometry` set; an id beyond the next unseen one fails the assertion |
| `Vtf.VtfWriter.FinalizeGeometry` | ifem_to_vt/writer/vtf.py:118-122 | binds all element blocks to step stepid + 1 only if dirty, and always clears the flag |
| `Vtf.VtfWriter.UpdateField` | ifem_to_vt/writer/vtf.py:136-151 | the result is bound to the element block for cell data and to the node block otherwise, and recorded under step stepid + 1; an unknown patch fails |
| `Vtf.VtfWriter.ExitStateInfo` | ifem_to_vt/writer/vtf.py:75-81 | one state-info call per step, in order, stopping at the first step that fails |
| `Vtk.ShiftedCellsAt` | siso/writer/vtk.py:103-105 | row r of topology k lands after the cells of the earlier topologies, shifted by the sum of their `num_nodes` |
| `Vtk.AllPointsAt` | siso/writer/vtk.py:95 | point i of topology k sits after the points of the earlier topologies |
| `Vtk.CellStreamAt` | siso/writer/vtk.py:106-107 | the flat array holds `ncells·(corners+1)` entries, and each row starts with its corner count |
| `Vtk.MakeGrid` | siso/writer/vtk.py:83-113 | no topologies fails; ragged corner counts fail; the cell type is that of the first topology |
| `Vtk.GridLength` | siso/writer/vtk.py:105-107 | the flattened length is ncells·(corners+1) |
| `Vtk.GridRow` | siso/writer/vtk.py:103-107 | cell r of topology k is its corner count followed by its corners shifted by the node count of the earlier topologies |
| `Vtk.GridCorner` | siso/writer/vtk.py:95-107 | every corner of the stacked grid names, in the stacked points, exactly the point its own topology gives that node |
| `Vtk.StructuredDimensions` | siso/writer/vtk.py:89-92 | the shape padded with 0 up to three entries, then each entry incremented by 1 |
| `Vtk.PvdTimestep` | siso/writer/vtk.py:211-214 | the first step-data value if there is one, else `stepid` |
| `Vtk.PvdTimestepKeepsFirst` | siso/writer/vtk.py:211-212 | adding further keys to non-empty step data keeps the time step |
| `Vtk.FieldUpdateSame` | siso/writer/vtk.py:69-71 | a field keeps the `cells` flag of its first update, and each update sets `data[key]` |
| `Vtk.FieldUpdateOtherPatch` | siso/writer/vtk.py:71 | the data of other patches is unchanged |
| `Vtk.FieldUpdateOtherField` | siso/writer/vtk.py:71 | other fields are unchanged |
| `Vtk.VtkWriter.constructor` | siso/writer/vtk.py:42-45 | a new writer starts with no topologies and no fields |
| `Vtk.VtkWriter.UpdateGeometry` | siso/writer/vtk.py:65-67 | stores or overwrites exactly the entry `patch.key[0]` of `topologies` |
| `Vtk.VtkWriter.UpdateField` | siso/writer/vtk.py:69-71 | the `setdefault` update of `fields`, leaving `topologies` alone |
| `Vtk.VtkWriter.CurrentGrid` | siso/writer/vtk.py:83-107 | the grid fails only with no topologies or ragged corner counts |
| `OrderedMap.Put` | siso/writer/vtk.py:67 | `d[k] = v` keeps an existing key's position and puts a new key last |
| `OrderedMap.GetPutSame` | siso/writer/vtk.py:67 | after `d[k] = v`, `d[k]` is v |
| `OrderedMap.GetPutOther` | siso/writer/vtk.py:67 | after `d[k] = v`, every other key maps to what it mapped to before |
| `OrderedMap.PutPut` | siso/writer/vtk.py:67 | storing twice under one key keeps only the second value |
| `OrderedMap.PutInPlace` | siso/writer/vtk.py:67 | on an existing key, `d[k] = v` replaces exactly that entry |
| `OrderedMap.PutUnique` | siso/writer/vtk.py:67 | `d[k] = v` keeps the keys distinct |
| `OrderedMap.SetDefault` | ifem_to_vt/writer/vtf.py:151 | `setdefault` returns the stored entry, or inserts the default at the end |

## Left out

- File access is not modelled: HDF5, netCDF and G2 reading (`patch`, `field_coeffs`,
  `mode_coeffs`, `check`, the data part of `variable_at`) and the patch cache. The geometry
  levels, knot vectors and dimension names they would produce become inputs.
- Spline evaluation (`patch(*tesselation)`, `SplineObject`, `BSplineBasis`, the Fortran-order
  reshape) is a foreign library. Schedules are modelled as sequences of reals, and the node
  grid of a patch is the shape of its schedule. Coordinates are never computed.
- Floating-point geometry is not modelled: `rotation`, `cartesian_field`, `velocity_field`,
  the trigonometry of `patch_at`, pole means, un-staggering of the data, `nan_filter` and
  `ensure_ncomps`.
- The vtf and vtk libraries and the file writing (`get_writer`, `SetCells`, the PVD text,
  `pvd.py`) are not modelled. vtf blocks are opaque natural-number handles, and the state-info
  text formatting `{:.4f}` is reduced to the label.
- Reader.Elements: the source stores element indices in a floating-point array. The model
  keeps them as integers, which is exact for the values involved.
- Reader.ValidNodeShape: a patch with fewer than two nodes in some direction makes the source
  fail (`nidxs[0]` of an empty list). The model requires two or more nodes in each direction
  instead of modelling that crash. It also requires at most three directions: with more, none
  of the branches at ifem_to_vt/reader.py:155-173 runs and the source writes rows of `2**d`
  zeros, which the model does not describe.
- Wrf.PeriodicPlanarMesh: requires nlat, nlon >= 2. With fewer, the source's structured
  blocks are empty or degenerate.
- Wrf.PeriodicVolumetricMesh: requires nvert, nlat, nlon >= 2 for the same reason.
- The configuration checks `assert config.periodic` and the planar-mode assertions in the
  mesh builders are not modelled. The methods are the periodic case.
- Writer.ProtocolWriter: the context managers' `yield` is split into separate begin and end
  methods. An exception raised inside a `with` block, which skips the end half, is not
  modelled.
- Vtf.VtfWriter.UpdateGeometry: only the `UnstructuredPatch` case is modelled. The structured
  case tesselates first, which is the spline evaluation left out above. The id from
  `super().update_geometry` when none is given comes from the base writer's geometry manager,
  which is not part of this model, so the id is an input.
- Vtf.VtfWriter: the `__exit__` binding of field blocks to result blocks is library I/O, and
  is left out.
- `update_mode` and the eigenmode loop of `write` are not modelled: they call the spline
  evaluation and the writer with the same bookkeeping as `write_field`.
- The catalogue's topology matching (`ObjectCatalogue.add` / `lookup`) belongs to the
  external splipy library. Its result, the node and the orientation, is an input.

## Findings

| source | as written | input that shows it | evidently intended | confidence | as-written member | corrected member |
|---|---|---|---|---|---|---|
| ifem_to_vt/reader.py:198 | the error message formats `index`, a name not defined in `basis_level` | updates [2], level 1: no update at or before the level | raise the `ValueError` naming the basis and the timestep | high; not executed | `Reader.BasisLevelAsWritten` | `Reader.BasisLevel` |
| siso/writer/writer.py:69 | `with_name(f'{stem}-{n}').with_suffix(suffix)` re-parses a suffix in `stem-n` whenever the stem itself contains a dot | root `out.v2.vtu`: steps 0 and 1 both become `out.vtu` | `out.v2-1.vtu`, `out.v2-2.vtu`: stem, dash, number, original suffix | high; not executed | `Writer.MakeFilenameAsWritten` | `Writer.MakeFilename` |
