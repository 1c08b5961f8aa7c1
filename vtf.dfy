/**
 * The block bookkeeping of the VTF writer (ifem_to_vt/writer/vtf.py). The blocks the vtf library
 * creates are opaque handles; the model keeps track of which handle is stored or bound where.
 */
module Vtf {
  import opened Wrappers
  import opened OrderedMap
  import Writer

  /** A block created by the vtf library (node, element or result block). */
  type Handle = nat

  /** A patch's node block and element block. */
  type GeometryBlock = (Handle, Handle)

  /** The three field block classes of the vtf library. */
  datatype BlockType = ScalarBlock | VectorBlock | DisplacementBlock

  /** What `update_field` asks of a field to choose its block type. */
  datatype FieldKind = FieldKind(isScalar: bool, isDisplacement: bool)

  /** A field: its block type and its result blocks per step number. */
  datatype Field = Field(blockType: BlockType, steps: Assoc<int, seq<Handle>>)

  /* ---------------------------------------------------------------------------------------
   * Geometry blocks
   * --------------------------------------------------------------------------------------- */

  /**
   * Storing the blocks of patch `patchid`: a known id is replaced in place, the next unseen id
   * is appended, and any larger id fails the source's assertion (`None`).
   */
  function PlaceBlock(blocks: seq<GeometryBlock>, patchid: nat, blk: GeometryBlock): (r: Option<seq<GeometryBlock>>)
    ensures r.Some? <==> patchid <= |blocks|
    ensures r.Some? ==> |r.value| == (if patchid < |blocks| then |blocks| else |blocks| + 1)
    ensures r.Some? ==> r.value[patchid] == blk
    ensures r.Some? ==> forall i :: 0 <= i < |blocks| && i != patchid ==> r.value[i] == blocks[i]
  {
    if patchid < |blocks| then Some(blocks[patchid := blk])
    else if patchid == |blocks| then Some(blocks + [blk])
    else None
  }

  /** Storing a patch twice keeps only the second pair of blocks. */
  lemma PlaceBlockTwice(blocks: seq<GeometryBlock>, patchid: nat, x: GeometryBlock, y: GeometryBlock)
    requires patchid <= |blocks|
    ensures PlaceBlock(PlaceBlock(blocks, patchid, x).value, patchid, y) == PlaceBlock(blocks, patchid, y)
  {
    var once := PlaceBlock(blocks, patchid, y).value;
    var twice := PlaceBlock(PlaceBlock(blocks, patchid, x).value, patchid, y).value;
    assert |twice| == |once|;
    forall i | 0 <= i < |once| ensures twice[i] == once[i] {
      if i != patchid {
        assert once[i] == blocks[i];
      }
    }
    assert twice == once;
  }

  /** A series of `update_geometry` calls, one patch id and pair of blocks each. */
  function PlaceAll(blocks: seq<GeometryBlock>, ids: seq<nat>, blks: seq<GeometryBlock>): Option<seq<GeometryBlock>>
    requires |ids| == |blks|
    decreases |ids|
  {
    if |ids| == 0 then Some(blocks)
    else match PlaceBlock(blocks, ids[0], blks[0])
      case None => None
      case Some(next) => PlaceAll(next, ids[1..], blks[1..])
  }

  /** The first time step: patches numbered 0, 1, ... in order fill the list with their blocks. */
  lemma {:induction false} PlaceAllFresh(blocks: seq<GeometryBlock>, blks: seq<GeometryBlock>, ids: seq<nat>)
    requires |ids| == |blks|
    requires forall i :: 0 <= i < |ids| ==> ids[i] == |blocks| + i
    ensures PlaceAll(blocks, ids, blks) == Some(blocks + blks)
    decreases |ids|
  {
    if |ids| > 0 {
      var next := blocks + [blks[0]];
      assert PlaceBlock(blocks, ids[0], blks[0]) == Some(next);
      assert PlaceAll(blocks, ids, blks) == PlaceAll(next, ids[1..], blks[1..]);
      PlaceAllFresh(next, blks[1..], ids[1..]);
      assert next + blks[1..] == blocks + blks;
    } else {
      assert blocks + blks == blocks;
    }
  }

  /** A later time step that sends only known patches never changes the number of blocks. */
  lemma {:induction false} PlaceAllKnown(blocks: seq<GeometryBlock>, ids: seq<nat>, blks: seq<GeometryBlock>)
    requires |ids| == |blks|
    requires forall i :: 0 <= i < |ids| ==> ids[i] < |blocks|
    ensures PlaceAll(blocks, ids, blks).Some?
    ensures |PlaceAll(blocks, ids, blks).value| == |blocks|
    decreases |ids|
  {
    if |ids| > 0 {
      var next := PlaceBlock(blocks, ids[0], blks[0]).value;
      PlaceAllKnown(next, ids[1..], blks[1..]);
    }
  }

  /* ---------------------------------------------------------------------------------------
   * Field blocks
   * --------------------------------------------------------------------------------------- */

  /** The block type of a field seen for the first time. */
  function BlockTypeOf(kind: FieldKind): (r: BlockType)
    ensures r == ScalarBlock <==> kind.isScalar
    ensures r == DisplacementBlock <==> !kind.isScalar && kind.isDisplacement
  {
    if kind.isScalar then ScalarBlock
    else if !kind.isDisplacement then VectorBlock
    else DisplacementBlock
  }

  /**
   * The bookkeeping of `update_field`: the field entry is created on first sight of its name,
   * and the result block is appended to the list stored under step number `key`.
   */
  function RecordResult(fields: Assoc<string, Field>, name: string, kind: FieldKind, key: int, rblock: Handle)
    : Assoc<string, Field>
  {
    var (f, withField) := SetDefault(fields, name, Field(BlockTypeOf(kind), []));
    var (rblocks, steps) := SetDefault(f.steps, key, []);
    Put(withField, name, Field(f.blockType, Put(steps, key, rblocks + [rblock])))
  }

  /** The result blocks stored for `name` at step `key`, `[]` when there are none. */
  function ResultBlocks(fields: Assoc<string, Field>, name: string, key: int): seq<Handle> {
    match Get(fields, name)
    case None => []
    case Some(f) => match Get(f.steps, key) case None => [] case Some(bs) => bs
  }

  /** A name is added to the field list only the first time, and the list keeps its order. */
  lemma RecordResultKeys(fields: Assoc<string, Field>, name: string, kind: FieldKind, key: int, rblock: Handle)
    ensures Keys(RecordResult(fields, name, kind, key, rblock))
         == if name in Keys(fields) then Keys(fields) else Keys(fields) + [name]
  {
    var (f, withField) := SetDefault(fields, name, Field(BlockTypeOf(kind), []));
    assert Keys(withField) == if name in Keys(fields) then Keys(fields) else Keys(fields) + [name] by {
      if name !in Keys(fields) {
        assert withField == fields + [(name, Field(BlockTypeOf(kind), []))];
        assert Keys(withField) == Keys(fields) + [name];
      }
    }
  }

  /**
   * `update_field`'s steps: add the field if it is new, add the step key if it is new, then
   * append the result block. Together they are `RecordResult`.
   */
  lemma RecordResultSteps(fields: Assoc<string, Field>, name: string, kind: FieldKind, key: int, rblock: Handle,
                          fields': Assoc<string, Field>, f: Field, fsteps: Assoc<int, seq<Handle>>, rblocks: seq<Handle>)
    requires fields' == if Get(fields, name).None? then fields + [(name, Field(BlockTypeOf(kind), []))] else fields
    requires Get(fields', name) == Some(f)
    requires fsteps == if Get(f.steps, key).None? then f.steps + [(key, [])] else f.steps
    requires Get(fsteps, key) == Some(rblocks)
    ensures RecordResult(fields, name, kind, key, rblock) == Put(fields', name, Field(f.blockType, Put(fsteps, key, rblocks + [rblock])))
  {
    SetDefaultByAppend(fields, name, Field(BlockTypeOf(kind), []));
    SetDefaultByAppend(f.steps, key, []);
  }

  /**
   * The bookkeeping of `update_field` on `field_blocks`: a field seen for the first time gets
   * its block type and no steps yet, then `steps.setdefault(stepid + 1, []).append(rblock)`.
   */
  method RecordStep(fields0: Assoc<string, Field>, name: string, kind: FieldKind, key: int, rblock: Handle)
    returns (fields': Assoc<string, Field>)
    ensures fields' == RecordResult(fields0, name, kind, key, rblock)
  {
    var fields := fields0;
    if Get(fields, name).None? {
      fields := fields + [(name, Field(BlockTypeOf(kind), []))];
    }
    SetDefaultByAppend(fields0, name, Field(BlockTypeOf(kind), []));
    var f := Get(fields, name).value;
    var fsteps := f.steps;
    if Get(fsteps, key).None? {
      fsteps := fsteps + [(key, [])];
    }
    SetDefaultByAppend(f.steps, key, []);
    var rblocks := Get(fsteps, key).value;
    RecordResultSteps(fields0, name, kind, key, rblock, fields, f, fsteps, rblocks);
    fields' := Put(fields, name, Field(f.blockType, Put(fsteps, key, rblocks + [rblock])));
  }

  /** `d.setdefault(k, v)` is the check `if k not in d: d[k] = v` followed by `d[k]`. */
  lemma SetDefaultByAppend<K, V>(m: Assoc<K, V>, k: K, v: V)
    ensures var m' := if Get(m, k).None? then m + [(k, v)] else m;
      Get(m', k).Some? && SetDefault(m, k, v) == (Get(m', k).value, m')
  {
    if Get(m, k).None? {
      AppendGet(m, k, v);
    }
  }

  /**
   * The block type of a field is fixed by its first update; every update appends its result
   * block, in order, to the list of its step.
   */
  lemma RecordResultSame(fields: Assoc<string, Field>, name: string, kind: FieldKind, key: int, rblock: Handle)
    ensures Get(RecordResult(fields, name, kind, key, rblock), name).Some?
    ensures Get(RecordResult(fields, name, kind, key, rblock), name).value.blockType
         == if Get(fields, name).Some? then Get(fields, name).value.blockType else BlockTypeOf(kind)
    ensures ResultBlocks(RecordResult(fields, name, kind, key, rblock), name, key)
         == ResultBlocks(fields, name, key) + [rblock]
  {
    var (f, withField) := SetDefault(fields, name, Field(BlockTypeOf(kind), []));
    var (rblocks, steps) := SetDefault(f.steps, key, []);
    var g := Field(f.blockType, Put(steps, key, rblocks + [rblock]));
    GetPutSame(withField, name, g);
    GetPutSame(steps, key, rblocks + [rblock]);
  }

  /** Other step numbers of the same field keep their result blocks. */
  lemma RecordResultOtherStep(fields: Assoc<string, Field>, name: string, kind: FieldKind, key: int, rblock: Handle,
                              key': int)
    requires key' != key
    ensures ResultBlocks(RecordResult(fields, name, kind, key, rblock), name, key') == ResultBlocks(fields, name, key')
  {
    var (f, withField) := SetDefault(fields, name, Field(BlockTypeOf(kind), []));
    var (rblocks, steps) := SetDefault(f.steps, key, []);
    var g := Field(f.blockType, Put(steps, key, rblocks + [rblock]));
    GetPutSame(withField, name, g);
    GetPutOther(steps, key, rblocks + [rblock], key');
    if Get(f.steps, key).None? {
      AppendGetOther(f.steps, key, [], key');
    }
  }

  /** Other fields are untouched. */
  lemma RecordResultOtherField(fields: Assoc<string, Field>, name: string, kind: FieldKind, key: int, rblock: Handle,
                               name': string)
    requires name' != name
    ensures Get(RecordResult(fields, name, kind, key, rblock), name') == Get(fields, name')
  {
    var (f, withField) := SetDefault(fields, name, Field(BlockTypeOf(kind), []));
    var (rblocks, steps) := SetDefault(f.steps, key, []);
    GetPutOther(withField, name, Field(f.blockType, Put(steps, key, rblocks + [rblock])), name');
    if Get(fields, name).None? {
      AppendGetOther(fields, name, Field(BlockTypeOf(kind), []), name');
    }
  }

  /* ---------------------------------------------------------------------------------------
   * State info
   * --------------------------------------------------------------------------------------- */

  /** The two state-info setters of the vtf library. */
  datatype Setter = SetStepData | SetModeData

  /** One state-info call: setter, step number, description and value. */
  datatype StateEntry = StateEntry(setter: Setter, number: int, description: string, value: real)

  /** `next(iter(data.items()))` on empty step data, and the description lookup's `KeyError`. */
  datatype StateInfoError = NoStepData(step: nat) | UnknownKey(step: nat, key: string)

  /** The description table of `exit_stateinfo`. */
  function Description(key: string): (r: Option<string>)
    ensures r.Some? <==> key == "value" || key == "frequency" || key == "time"
  {
    if key == "value" then Some("Eigenvalue")
    else if key == "frequency" then Some("Frequency")
    else if key == "time" then Some("Time")
    else None
  }

  /** The state-info call for step index `s`, from the first entry of its step data. */
  function StateEntryOf(s: nat, data: Writer.StepData): (r: Result<StateEntry, StateInfoError>)
    ensures |data| == 0 ==> r == Err(NoStepData(s))
    ensures |data| > 0 ==> (r.Ok? <==> Description(data[0].0).Some?)
    ensures |data| > 0 && r.Err? ==> r.error == UnknownKey(s, data[0].0)
    ensures r.Ok? ==> r.value.number == s + 1 && r.value.value == data[0].1
    ensures r.Ok? ==> (r.value.setter == SetStepData <==> data[0].0 == "time")
    ensures r.Ok? ==> r.value.description == Description(data[0].0).value
  {
    if |data| == 0 then Err(NoStepData(s))
    else
      var (key, value) := data[0];
      var setter := if key == "time" then SetStepData else SetModeData;
      match Description(key)
      case None => Err(UnknownKey(s, key))
      case Some(desc) => Ok(StateEntry(setter, s + 1, desc, value))
  }

  /** The only descriptions: time steps are labelled Time, all others are modes. */
  lemma StateEntryLabels(s: nat, data: Writer.StepData)
    requires StateEntryOf(s, data).Ok?
    ensures var e := StateEntryOf(s, data).value;
      (e.setter == SetStepData && e.description == "Time")
      || (e.setter == SetModeData && (e.description == "Eigenvalue" || e.description == "Frequency"))
  {
  }

  /* ---------------------------------------------------------------------------------------
   * The writer
   * --------------------------------------------------------------------------------------- */

  class VtfWriter {
    var stepId: int
    var steps: seq<Writer.StepData>
    var geometryBlocks: seq<GeometryBlock>
    var fieldBlocks: Assoc<string, Field>
    var dirtyGeometry: bool
    /** The calls of `BindElementBlocks` on the geometry block: step number and element blocks. */
    var elementBindings: seq<(int, seq<Handle>)>

    /** `__init__` and `__enter__`; the base writer starts at step id -1. */
    constructor()
      ensures stepId == -1 && steps == [] && geometryBlocks == [] && fieldBlocks == []
      ensures !dirtyGeometry && elementBindings == []
    {
      stepId := -1;
      steps := [];
      geometryBlocks := [];
      fieldBlocks := [];
      dirtyGeometry := false;
      elementBindings := [];
    }

    /** `add_step`: the base writer advances the step id, and the step data is kept. */
    method AddStep(data: Writer.StepData)
      modifies this
      ensures steps == old(steps) + [data] && stepId == old(stepId) + 1
      ensures geometryBlocks == old(geometryBlocks) && fieldBlocks == old(fieldBlocks)
      ensures dirtyGeometry == old(dirtyGeometry) && elementBindings == old(elementBindings)
    {
      stepId := stepId + 1;
      steps := steps + [data];
    }

    /** `update_geometry` for an unstructured patch with a known id; `ok == false` is the failed assertion. */
    method UpdateGeometry(patchid: nat, nblock: Handle, eblock: Handle) returns (ok: bool)
      modifies this
      ensures ok <==> patchid <= |old(geometryBlocks)|
      ensures ok ==> geometryBlocks == PlaceBlock(old(geometryBlocks), patchid, (nblock, eblock)).value
      ensures ok ==> dirtyGeometry
      ensures !ok ==> geometryBlocks == old(geometryBlocks) && dirtyGeometry == old(dirtyGeometry)
      ensures stepId == old(stepId) && steps == old(steps) && fieldBlocks == old(fieldBlocks)
      ensures elementBindings == old(elementBindings)
    {
      if |geometryBlocks| <= patchid && |geometryBlocks| != patchid {
        return false;
      }
      if |geometryBlocks| <= patchid {
        geometryBlocks := geometryBlocks + [(nblock, eblock)];
      } else {
        geometryBlocks := geometryBlocks[patchid := (nblock, eblock)];
      }
      dirtyGeometry := true;
      return true;
    }

    /** `finalize_geometry`: binds all element blocks to the next step number only if something changed. */
    method FinalizeGeometry()
      modifies this
      ensures elementBindings == old(elementBindings)
        + (if old(dirtyGeometry) then [(stepId + 1, Values(geometryBlocks))] else [])
      ensures !dirtyGeometry
      ensures stepId == old(stepId) && steps == old(steps)
      ensures geometryBlocks == old(geometryBlocks) && fieldBlocks == old(fieldBlocks)
    {
      if dirtyGeometry {
        var elements := CollectElements(geometryBlocks);
        elementBindings := elementBindings + [(stepId + 1, elements)];
      }
      dirtyGeometry := false;
    }

    /**
     * `update_field` for patch `patchid`: the result block `rblock` is bound to the patch's
     * element block for cell data and to its node block otherwise, and recorded under the
     * next step number. An unknown patch id is the source's `IndexError`.
     */
    method UpdateField(name: string, kind: FieldKind, cells: bool, patchid: nat, rblock: Handle)
      returns (ok: bool, target: Handle)
      modifies this
      ensures ok <==> patchid < |geometryBlocks|
      ensures ok ==> target == if cells then geometryBlocks[patchid].1 else geometryBlocks[patchid].0
      ensures ok ==> fieldBlocks == RecordResult(old(fieldBlocks), name, kind, stepId + 1, rblock)
      ensures !ok ==> fieldBlocks == old(fieldBlocks)
      ensures stepId == old(stepId) && steps == old(steps) && geometryBlocks == old(geometryBlocks)
      ensures dirtyGeometry == old(dirtyGeometry) && elementBindings == old(elementBindings)
    {
      if patchid >= |geometryBlocks| {
        return false, 0;
      }
      var blocks := geometryBlocks[patchid];
      target := if cells then blocks.1 else blocks.0;
      var updated := RecordStep(fieldBlocks, name, kind, stepId + 1, rblock);
      fieldBlocks := updated;
      ok := true;
    }

    /**
     * `exit_stateinfo`: one call per step, in order, until the first step whose data has no
     * entry or an unknown key; `err` reports that step.
     */
    method ExitStateInfo() returns (calls: seq<StateEntry>, err: Option<StateInfoError>)
      ensures |calls| <= |steps|
      ensures forall s :: 0 <= s < |calls| ==> StateEntryOf(s, steps[s]) == Ok(calls[s])
      ensures err.None? ==> |calls| == |steps|
      ensures err.Some? ==> |calls| < |steps| && StateEntryOf(|calls|, steps[|calls|]) == Err(err.value)
    {
      calls := [];
      var s := 0;
      while s < |steps|
        invariant 0 <= s <= |steps| && |calls| == s
        invariant forall t :: 0 <= t < s ==> StateEntryOf(t, steps[t]) == Ok(calls[t])
      {
        match StateEntryOf(s, steps[s])
        case Err(e) =>
          return calls, Some(e);
        case Ok(entry) =>
          calls := calls + [entry];
        s := s + 1;
      }
      err := None;
    }
  }

  /** The list comprehension `[e for _, e in geometry_blocks]`. */
  method CollectElements(blocks: seq<GeometryBlock>) returns (elements: seq<Handle>)
    ensures elements == Values(blocks)
  {
    elements := [];
    var i := 0;
    while i < |blocks|
      invariant 0 <= i <= |blocks|
      invariant elements == Values(blocks[..i])
    {
      assert blocks[..i + 1] == blocks[..i] + [blocks[i]];
      ValuesSnoc(blocks[..i], blocks[i]);
      elements := elements + [blocks[i].1];
      i := i + 1;
    }
    assert blocks[..i] == blocks;
  }
}
