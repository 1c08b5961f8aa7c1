/**
 * The base writer of siso/writer/writer.py: the step/geometry/field protocol every concrete
 * writer follows, guarded by assertions on `stepid`, `step_finalized` and
 * `geometry_finalized`, and the construction of per-step output file names.
 */
module Writer {
  import opened Wrappers
  import opened Strings

  /* ---------------------------------------------------------------------------------------
   * The protocol state machine
   * --------------------------------------------------------------------------------------- */

  /** Per-step metadata such as `{'time': 1.5}`, in insertion order. */
  type StepData = seq<(string, real)>

  /** The three fields the protocol guards. */
  datatype Protocol = Protocol(stepId: int, stepFinalized: bool, geometryFinalized: bool)

  /**
   * The protocol events: entering and leaving `step()` and `geometry()`, opening `field()`,
   * and a call of `update_geometry` (directly or through the callback `geometry()` yields).
   */
  datatype Event = BeginStep | EndStep | BeginGeometry | EndGeometry | OpenField | UpdateGeometry

  /** The state `__enter__` establishes. */
  function Entered(): Protocol {
    Protocol(-1, true, true)
  }

  /**
   * One event: the next state, or `None` when one of the source's assertions fails
   * (an `AssertionError`, which aborts the conversion).
   */
  function Apply(s: Protocol, ev: Event): (r: Option<Protocol>)
    ensures ev == BeginStep ==> (r.Some? <==> s.stepFinalized)
    ensures ev == EndStep ==> (r.Some? <==> s.geometryFinalized && !s.stepFinalized)
    ensures ev == OpenField ==> (r.Some? <==> s.geometryFinalized)
    ensures ev == UpdateGeometry ==> (r.Some? <==> !s.geometryFinalized)
    ensures ev == BeginGeometry || ev == EndGeometry ==> r.Some?
    ensures r.Some? && ev != BeginStep ==> r.value.stepId == s.stepId
  {
    match ev
    case BeginStep =>
      if s.stepFinalized then Some(Protocol(s.stepId + 1, false, false)) else None
    case EndStep =>
      if s.geometryFinalized && !s.stepFinalized then Some(s.(stepFinalized := true)) else None
    case BeginGeometry => Some(s.(geometryFinalized := false))
    case EndGeometry => Some(s.(geometryFinalized := true))
    case OpenField => if s.geometryFinalized then Some(s) else None
    case UpdateGeometry => if !s.geometryFinalized then Some(s) else None
  }

  /** A sequence of events from state `s`: the final state, or `None` at the first failed assertion. */
  function Run(s: Protocol, evs: seq<Event>): Option<Protocol>
    decreases |evs|
  {
    if |evs| == 0 then Some(s)
    else match Run(s, evs[..|evs| - 1])
      case None => None
      case Some(t) => Apply(t, evs[|evs| - 1])
  }

  /** How many times `ev` occurs in `evs`. */
  function Count(evs: seq<Event>, ev: Event): nat {
    if |evs| == 0 then 0
    else Count(evs[..|evs| - 1], ev) + (if evs[|evs| - 1] == ev then 1 else 0)
  }

  /**
   * The last event that sets or clears `geometry_finalized` (`step()` clears it on entry,
   * `geometry()` clears it on entry and sets it on exit), if any.
   */
  function LastGeometryEvent(evs: seq<Event>): Option<Event> {
    if |evs| == 0 then None
    else
      var ev := evs[|evs| - 1];
      if ev == BeginStep || ev == BeginGeometry || ev == EndGeometry then Some(ev)
      else LastGeometryEvent(evs[..|evs| - 1])
  }

  /**
   * Along every run from `__enter__` that trips no assertion: `stepid` is one less than the
   * number of steps started; steps never overlap (every step but possibly the current one
   * has ended, and `step_finalized` says whether the current one has); and
   * `geometry_finalized` holds exactly when no step or geometry block has been entered since
   * the last geometry block ended.
   */
  lemma {:induction false} RunInvariant(evs: seq<Event>)
    requires Run(Entered(), evs).Some?
    ensures Run(Entered(), evs).value.stepId == Count(evs, BeginStep) - 1
    ensures Run(Entered(), evs).value.stepFinalized ==> Count(evs, BeginStep) == Count(evs, EndStep)
    ensures !Run(Entered(), evs).value.stepFinalized ==> Count(evs, BeginStep) == Count(evs, EndStep) + 1
    ensures Run(Entered(), evs).value.geometryFinalized
        <==> LastGeometryEvent(evs) == None || LastGeometryEvent(evs) == Some(EndGeometry)
    decreases |evs|
  {
    if |evs| > 0 {
      var init := evs[..|evs| - 1];
      RunInvariant(init);
    }
  }

  /** A step that ends without a finished geometry block trips an assertion. */
  lemma StepNeedsGeometry(s: Protocol)
    ensures Run(s, [BeginStep, EndStep]) == None
    ensures Run(s, [BeginStep, OpenField]) == None
  {
    assert [BeginStep, EndStep][..1] == [BeginStep];
    assert [BeginStep, OpenField][..1] == [BeginStep];
  }

  /**
   * The sequence a reader drives for one step: enter the step, write the geometry of each
   * patch, then the fields, then leave the step. From a finished step it succeeds and
   * advances `stepid` by one.
   */
  lemma OneStep(s: Protocol, patches: nat)
    requires s.stepFinalized
    ensures Run(s, StepEvents(patches)) == Some(Protocol(s.stepId + 1, true, true))
  {
    var geo := [BeginStep, BeginGeometry] + Repeat(UpdateGeometry, patches);
    assert [BeginStep, BeginGeometry][..1] == [BeginStep] && [BeginStep][..0] == [];
    assert Run(s, [BeginStep, BeginGeometry]) == Some(Protocol(s.stepId + 1, false, false));
    var t := Protocol(s.stepId + 1, false, false);
    RunUpdates(t, [BeginStep, BeginGeometry], patches, s);
    var evs := StepEvents(patches);
    assert (geo + [EndGeometry])[..|geo|] == geo;
    assert Run(s, geo + [EndGeometry]) == Some(t.(geometryFinalized := true));
    assert (geo + [EndGeometry, OpenField])[..|geo| + 1] == geo + [EndGeometry];
    assert Run(s, geo + [EndGeometry, OpenField]) == Some(t.(geometryFinalized := true));
    assert evs[..|evs| - 1] == geo + [EndGeometry, OpenField];
  }

  function Repeat(ev: Event, n: nat): (r: seq<Event>)
    ensures |r| == n && forall k :: 0 <= k < n ==> r[k] == ev
  {
    if n == 0 then [] else Repeat(ev, n - 1) + [ev]
  }

  function StepEvents(patches: nat): seq<Event> {
    [BeginStep, BeginGeometry] + Repeat(UpdateGeometry, patches) + [EndGeometry, OpenField, EndStep]
  }

  lemma {:induction false} RunUpdates(t: Protocol, pre: seq<Event>, n: nat, s: Protocol)
    requires Run(s, pre) == Some(t) && !t.geometryFinalized
    ensures Run(s, pre + Repeat(UpdateGeometry, n)) == Some(t)
    decreases n
  {
    var evs := pre + Repeat(UpdateGeometry, n);
    if n > 0 {
      RunUpdates(t, pre, n - 1, s);
      assert evs[..|evs| - 1] == pre + Repeat(UpdateGeometry, n - 1);
      assert evs[|evs| - 1] == UpdateGeometry;
    } else {
      assert evs == pre;
    }
  }

  /**
   * The protocol part of a writer. A failed source assertion is reported as `ok == false`
   * and leaves the writer unchanged.
   */
  class ProtocolWriter {
    const outpath: Path
    var stepId: int
    var stepData: StepData
    var stepFinalized: bool
    var geometryFinalized: bool

    function State(): Protocol
      reads this
    {
      Protocol(stepId, stepFinalized, geometryFinalized)
    }

    /** `__init__`: only the output path is set; the protocol fields are set by `__enter__`. */
    constructor(outpath: Path)
      ensures this.outpath == outpath
    {
      this.outpath := outpath;
    }

    /** `__enter__`. */
    method Enter()
      modifies this
      ensures State() == Entered() && stepData == []
    {
      stepId := -1;
      stepData := [];
      stepFinalized := true;
      geometryFinalized := true;
    }

    /** Entering `step(stepdata)`. */
    method BeginStep(data: StepData) returns (ok: bool)
      modifies this
      ensures ok == Apply(old(State()), Event.BeginStep).Some?
      ensures ok ==> State() == Apply(old(State()), Event.BeginStep).value && stepData == data
      ensures !ok ==> State() == old(State()) && stepData == old(stepData)
    {
      if !stepFinalized {
        return false;
      }
      stepId := stepId + 1;
      stepData := data;
      stepFinalized := false;
      geometryFinalized := false;
      return true;
    }

    /** Leaving `step()`. */
    method EndStep() returns (ok: bool)
      modifies this
      ensures ok == Apply(old(State()), Event.EndStep).Some?
      ensures ok ==> State() == Apply(old(State()), Event.EndStep).value
      ensures !ok ==> State() == old(State())
      ensures stepData == old(stepData)
    {
      if !geometryFinalized || stepFinalized {
        return false;
      }
      stepFinalized := true;
      return true;
    }

    /** Entering `geometry()`. */
    method BeginGeometry()
      modifies this
      ensures State() == Apply(old(State()), Event.BeginGeometry).value && stepData == old(stepData)
    {
      geometryFinalized := false;
    }

    /** Leaving `geometry()`. */
    method EndGeometry()
      modifies this
      ensures State() == Apply(old(State()), Event.EndGeometry).value && stepData == old(stepData)
    {
      geometryFinalized := true;
    }

    /** Entering `field()`: legal only once the geometry is finalized. */
    method OpenField() returns (ok: bool)
      ensures ok <==> geometryFinalized
    {
      ok := geometryFinalized;
    }

    /** The guard of `update_geometry`: legal only while the geometry is not finalized. */
    method CheckUpdateGeometry() returns (ok: bool)
      ensures ok <==> !geometryFinalized
    {
      ok := !geometryFinalized;
    }

    /**
     * `make_filename`, on the writer's output path and current step, in its corrected form
     * `MakeFilename`: the step number is kept even when the stem contains a dot, where the
     * source's two-step rename drops it (`MakeFilenameAsWritten`).
     */
    method Filename(root: Option<Path>, withStep: bool, multipleTimesteps: bool, indexing: int)
      returns (r: Result<Path, PathError>)
      ensures r == MakeFilename(outpath, root, withStep, multipleTimesteps, stepId, indexing)
    {
      var base := if root.None? then outpath else root.value;
      if !(withStep && multipleTimesteps) {
        return Ok(base);
      }
      r := WithName(base, StepName(base.name, stepId + indexing));
    }
  }

  /* ---------------------------------------------------------------------------------------
   * Paths and `make_filename`
   * --------------------------------------------------------------------------------------- */

  /** A path: the directory part, kept as it is, and the final component `name`. */
  datatype Path = Path(dir: string, name: string)

  datatype PathError = EmptyName | InvalidName(name: string) | InvalidSuffix(suffix: string)

  /** `PurePath.suffix`: from the last dot of the name, unless that dot is first or last. */
  function Suffix(name: string): (r: string)
    ensures r == "" || (r[0] == '.' && '.' !in r[1..] && 2 <= |r| < |name|)
    ensures r != "" ==> EndsWith(name, r)
  {
    var i := RFind(name, '.');
    if 0 < i < |name| - 1 then
      LastDotSuffix(name, i);
      name[i..]
    else ""
  }

  /** The name from its last dot on starts with that dot and holds no other. */
  lemma LastDotSuffix(name: string, i: int)
    requires i == RFind(name, '.') && 0 < i < |name| - 1
    ensures name[i..][0] == '.' && '.' !in name[i..][1..]
    ensures EndsWith(name, name[i..])
  {
    RFindIsLast(name, '.');
    var r := name[i..];
    forall m | 0 <= m < |r| - 1
      ensures r[1..][m] != '.'
    {
      assert r[1..][m] == name[i + 1 + m];
    }
    assert name[|name| - |r|..] == r;
  }

  /** `PurePath.stem`: the name without its suffix. */
  function Stem(name: string): (r: string)
    ensures r + Suffix(name) == name
  {
    var i := RFind(name, '.');
    if 0 < i < |name| - 1 then name[..i] else name
  }

  /** `PurePath.with_name`: the same directory with another final component. */
  function WithName(p: Path, name: string): (r: Result<Path, PathError>)
    ensures r.Ok? <==> p.name != "" && name != "" && '/' !in name
    ensures r.Ok? ==> r.value == Path(p.dir, name)
  {
    if p.name == "" then Err(EmptyName)
    else if name == "" || '/' in name then Err(InvalidName(name))
    else Ok(Path(p.dir, name))
  }

  /** `PurePath.with_suffix`: the name's suffix replaced by (or, if it has none, extended with) `suffix`. */
  function WithSuffix(p: Path, suffix: string): (r: Result<Path, PathError>)
    ensures r.Ok? <==> ('/' !in suffix && (suffix == "" || (suffix[0] == '.' && suffix != ".")) && p.name != "")
    ensures r.Ok? ==> r.value == Path(p.dir, Stem(p.name) + suffix)
  {
    if '/' in suffix || (suffix != "" && (suffix[0] != '.' || suffix == ".")) then Err(InvalidSuffix(suffix))
    else if p.name == "" then Err(EmptyName)
    else
      var prev := Suffix(p.name);
      Ok(Path(p.dir, (if prev == "" then p.name else p.name[..|p.name| - |prev|]) + suffix))
  }

  /** The file name of step `n`: the stem, a dash, the number and the suffix. */
  function StepName(name: string, n: int): string {
    Stem(name) + "-" + IntToString(n) + Suffix(name)
  }

  /**
   * `make_filename` as the source writes it: `root.with_name(f'{stem}-{n}').with_suffix(suffix)`.
   * The second call re-parses the suffix of `stem-n`, which is not empty when the stem itself
   * contains a dot, and so cuts the number off again.
   */
  function MakeFilenameAsWritten(outpath: Path, root: Option<Path>, withStep: bool, multipleTimesteps: bool,
                                 stepId: int, indexing: int): (r: Result<Path, PathError>)
    ensures !(withStep && multipleTimesteps) ==> r == Ok(if root.None? then outpath else root.value)
    ensures withStep && multipleTimesteps && r.Ok? ==> r.value.dir == (if root.None? then outpath else root.value).dir
  {
    var base := if root.None? then outpath else root.value;
    if !(withStep && multipleTimesteps) then Ok(base)
    else match WithName(base, Stem(base.name) + "-" + IntToString(stepId + indexing))
      case Err(e) => Err(e)
      case Ok(p) => WithSuffix(p, Suffix(base.name))
  }

  /**
   * `make_filename` as intended: the root (by default the output path) unchanged unless both
   * `with_step` and `multiple_timesteps` hold, and otherwise the root renamed to
   * `stem-(stepid + indexing)` followed by the original suffix. It fails only where pathlib
   * does, on a root with an empty name.
   */
  function MakeFilename(outpath: Path, root: Option<Path>, withStep: bool, multipleTimesteps: bool,
                        stepId: int, indexing: int): (r: Result<Path, PathError>)
    ensures var base := if root.None? then outpath else root.value;
      && (!(withStep && multipleTimesteps) ==> r == Ok(base))
      && (withStep && multipleTimesteps && '/' !in base.name ==>
            (r.Ok? <==> base.name != "")
            && (r.Ok? ==> r.value == Path(base.dir, Stem(base.name) + "-" + IntToString(stepId + indexing) + Suffix(base.name))))
  {
    var base := if root.None? then outpath else root.value;
    if !(withStep && multipleTimesteps) then Ok(base)
    else
      StepNameHasNoSlash(base.name, stepId + indexing);
      WithName(base, StepName(base.name, stepId + indexing))
  }

  lemma StepNameHasNoSlash(name: string, n: int)
    ensures '/' !in name ==> StepName(name, n) != "" && '/' !in StepName(name, n)
  {
    if '/' !in name {
      NoSlashParts(name, n);
      assert StepName(name, n) == (Stem(name) + "-" + IntToString(n)) + Suffix(name);
    }
  }

  /** A decimal notation holds only digits and possibly a leading minus sign. */
  lemma IntToStringHasNo(n: int, ch: char)
    requires !IsDigit(ch) && ch != '-'
    ensures ch !in IntToString(n)
  {
    if n < 0 {
      assert IntToString(n) == "-" + NatToString(-n);
    }
  }

  /** The last occurrence in `a + b` of a character that occurs in `b` is the last one in `b`. */
  lemma {:induction false} RFindConcat(a: string, b: string, ch: char)
    requires ch in b
    ensures RFind(a + b, ch) == |a| + RFind(b, ch)
    decreases |b|
  {
    var ab := a + b;
    assert ab[|ab| - 1] == b[|b| - 1];
    if b[|b| - 1] != ch {
      assert ab[..|ab| - 1] == a + b[..|b| - 1];
      RFindConcat(a, b[..|b| - 1], ch);
    }
  }

  /** Characters of `b` other than `ch` do not move the last occurrence of `ch` in `a`. */
  lemma {:induction false} RFindSkips(a: string, b: string, ch: char)
    requires ch !in b
    ensures RFind(a + b, ch) == RFind(a, ch)
    decreases |b|
  {
    var ab := a + b;
    if |b| > 0 {
      assert ab[|ab| - 1] == b[|b| - 1];
      assert ab[..|ab| - 1] == a + b[..|b| - 1];
      RFindSkips(a, b[..|b| - 1], ch);
    } else {
      assert ab == a;
    }
  }

  /**
   * For a name with a suffix (`out.vtu`), the step file name splits back into the numbered
   * stem and the original suffix: the number sits between the two.
   */
  lemma StepNameParts(name: string, n: int)
    requires Suffix(name) != ""
    ensures Stem(StepName(name, n)) == Stem(name) + "-" + IntToString(n)
    ensures Suffix(StepName(name, n)) == Suffix(name)
  {
    var stem, suf, num := Stem(name), Suffix(name), IntToString(n);
    var full := StepName(name, n);
    assert RFind(suf, '.') == 0 by {
      RFindIsLast(suf, '.');
    }
    RFindConcat(stem + "-" + num, suf, '.');
  }

  /** Equal strings around two middle parts force the middle parts to be equal. */
  lemma MiddleCancel(p: string, a: string, b: string, q: string)
    requires p + a + q == p + b + q
    ensures a == b
  {
    assert |a| == |b|;
    assert a == (p + a + q)[|p|..|p| + |a|];
    assert b == (p + b + q)[|p|..|p| + |b|];
  }

  /** Different step numbers give different file names. */
  lemma MakeFilenameInjective(outpath: Path, root: Option<Path>, stepA: int, stepB: int, indexing: int)
    requires MakeFilename(outpath, root, true, true, stepA, indexing).Ok?
    requires MakeFilename(outpath, root, true, true, stepA, indexing) == MakeFilename(outpath, root, true, true, stepB, indexing)
    ensures stepA == stepB
  {
    var base := if root.None? then outpath else root.value;
    var nameA, nameB := StepName(base.name, stepA + indexing), StepName(base.name, stepB + indexing);
    assert WithName(base, nameA) == WithName(base, nameB);
    assert nameA == nameB;
    MiddleCancel(Stem(base.name) + "-", IntToString(stepA + indexing), IntToString(stepB + indexing), Suffix(base.name));
    IntToStringInjective(stepA + indexing, stepB + indexing);
  }

  /** `stem-n` has no suffix when the stem holds no dot after its first character. */
  lemma RenamedHasNoSuffix(stem: string, n: int)
    requires forall k :: 0 < k < |stem| ==> stem[k] != '.'
    ensures Suffix(stem + "-" + IntToString(n)) == ""
  {
    var num := IntToString(n);
    var renamed := stem + "-" + num;
    IntToStringHasNo(n, '.');
  }

  /** Neither the numbered stem nor the suffix of a name without `/` contains `/`. */
  lemma NoSlashParts(name: string, n: int)
    requires '/' !in name
    ensures '/' !in Stem(name) + "-" + IntToString(n) && '/' !in Suffix(name)
  {
    var stem, suf := Stem(name), Suffix(name);
    assert stem + suf == name;
    forall k | 0 <= k < |stem| ensures stem[k] != '/' {
      assert stem[k] == name[k];
    }
    forall k | 0 <= k < |suf| ensures suf[k] != '/' {
      assert suf[k] == name[|stem| + k];
    }
    IntToStringHasNo(n, '/');
  }

  /**
   * Where the stem holds no dot after its first character, the source's two-step rename is
   * the intended one (names never contain the separator `/`).
   */
  lemma MakeFilenameAsWrittenAgrees(outpath: Path, root: Option<Path>, withStep: bool, multipleTimesteps: bool,
                                    stepId: int, indexing: int)
    requires var base := if root.None? then outpath else root.value;
      '/' !in base.name && forall k :: 0 < k < |Stem(base.name)| ==> Stem(base.name)[k] != '.'
    ensures MakeFilenameAsWritten(outpath, root, withStep, multipleTimesteps, stepId, indexing)
         == MakeFilename(outpath, root, withStep, multipleTimesteps, stepId, indexing)
  {
    var base := if root.None? then outpath else root.value;
    if withStep && multipleTimesteps && base.name != "" {
      var renamed := Stem(base.name) + "-" + IntToString(stepId + indexing);
      var suf := Suffix(base.name);
      NoSlashParts(base.name, stepId + indexing);
      assert WithName(base, renamed) == Ok(Path(base.dir, renamed));
      RenamedHasNoSuffix(Stem(base.name), stepId + indexing);
      assert Stem(renamed) == renamed;
      if suf != "" {
        ReplaceSuffix(Path(base.dir, renamed), suf);
      } else {
        assert WithSuffix(Path(base.dir, renamed), suf) == Ok(Path(base.dir, renamed));
      }
      assert MakeFilenameAsWritten(outpath, root, withStep, multipleTimesteps, stepId, indexing)
          == Ok(Path(base.dir, renamed + suf));
      assert renamed + suf == Stem(base.name) + "-" + IntToString(stepId + indexing) + Suffix(base.name);
    }
  }

  /** `x.y`: two parts joined by a dot. */
  function JoinDot(x: string, y: string): string {
    x + ("." + y)
  }

  /** A name `pre.c` with a dot-free, non-empty `c` and a non-empty `pre` has suffix `.c` and stem `pre`. */
  lemma SplitLastDot(pre: string, c: string)
    requires pre != "" && c != "" && '.' !in c
    ensures Suffix(JoinDot(pre, c)) == "." + c && Stem(JoinDot(pre, c)) == pre
  {
    assert RFind("." + c, '.') == 0 by {
      RFindSkips(".", c, '.');
    }
    RFindConcat(pre, "." + c, '.');
  }

  lemma RenamedJoin(a: string, b: string, num: string)
    ensures JoinDot(a, b) + "-" + num == JoinDot(a, b + "-" + num)
  {
  }

  /**
   * For a name `a.b.c` the source drops the step number: `a.b-n` has the suffix `.b-n`,
   * which `with_suffix` replaces by `.c`, so every step is written to `a.c`.
   */
  lemma MakeFilenameAsWrittenDropsStep(dir: string, a: string, b: string, c: string, stepId: int, indexing: int)
    requires a != "" && c != "" && '.' !in b && '.' !in c && '/' !in a && '/' !in b && '/' !in c
    ensures MakeFilenameAsWritten(Path(dir, JoinDot(JoinDot(a, b), c)), None, true, true, stepId, indexing)
         == Ok(Path(dir, JoinDot(a, c)))
  {
    var name := JoinDot(JoinDot(a, b), c);
    var renamed := JoinDot(a, b) + "-" + IntToString(stepId + indexing);
    DottedParts(a, b, c, stepId + indexing);
    assert Stem(name) + "-" + IntToString(stepId + indexing) == renamed;
    assert WithName(Path(dir, name), renamed) == Ok(Path(dir, renamed));
    var p, suf := Path(dir, renamed), "." + c;
    assert Suffix(name) == suf && Stem(renamed) == a;
    ReplaceSuffix(p, suf);
    assert WithSuffix(p, suf) == Ok(Path(dir, a + suf));
    assert a + suf == JoinDot(a, c);
  }

  /** `with_suffix` of a valid suffix `.c` on a non-empty name keeps the directory and the stem. */
  lemma ReplaceSuffix(p: Path, suffix: string)
    requires p.name != "" && '/' !in suffix && |suffix| >= 2 && suffix[0] == '.'
    ensures WithSuffix(p, suffix) == Ok(Path(p.dir, Stem(p.name) + suffix))
  {
  }

  /** The parts `make_filename` computes for the name `a.b.c` and step number `n`. */
  lemma DottedParts(a: string, b: string, c: string, n: int)
    requires a != "" && c != "" && '.' !in b && '.' !in c && '/' !in a && '/' !in b && '/' !in c
    ensures Suffix(JoinDot(JoinDot(a, b), c)) == "." + c && Stem(JoinDot(JoinDot(a, b), c)) == JoinDot(a, b)
    ensures Stem(JoinDot(a, b) + "-" + IntToString(n)) == a
    ensures '/' !in JoinDot(a, b) + "-" + IntToString(n) && '/' !in "." + c
  {
    SplitLastDot(JoinDot(a, b), c);
    var num := IntToString(n);
    IntToStringHasNo(n, '.');
    IntToStringHasNo(n, '/');
    RenamedJoin(a, b, num);
    SplitLastDot(a, b + "-" + num);
  }

  /**
   * With the root `out.v2.vtu`, steps 0 and 1 both go to `out.vtu`, where the intended name
   * of step 0 is `out.v2-1.vtu`.
   */
  lemma MakeFilenameAsWrittenCollides()
    ensures MakeFilenameAsWritten(Path("", "out.v2.vtu"), None, true, true, 0, 1) == Ok(Path("", "out.vtu"))
    ensures MakeFilenameAsWritten(Path("", "out.v2.vtu"), None, true, true, 1, 1) == Ok(Path("", "out.vtu"))
    ensures MakeFilename(Path("", "out.v2.vtu"), None, true, true, 0, 1) == Ok(Path("", "out.v2-1.vtu"))
  {
    OutNames();
    MakeFilenameAsWrittenDropsStep("", "out", "v2", "vtu", 0, 1);
    MakeFilenameAsWrittenDropsStep("", "out", "v2", "vtu", 1, 1);
    SplitLastDot(JoinDot("out", "v2"), "vtu");
    assert IntToString(1) == "1";
  }

  lemma OutNames()
    ensures "out.v2.vtu" == JoinDot(JoinDot("out", "v2"), "vtu")
    ensures "out.vtu" == JoinDot("out", "vtu")
    ensures JoinDot("out", "v2") + "-" + "1" + ("." + "vtu") == "out.v2-1.vtu"
  {
  }

}
