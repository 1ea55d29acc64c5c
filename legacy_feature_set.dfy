/**
 * The legacy feature sets (`gpu_feature_set`, `full_feature_set`,
 * `grewe11_feature_set`), which count instructions one by one in an `int`
 * map, and the legacy `feature_eval` pass that drives them.
 */
module LegacyFeatureSet {
  import opened Ir

  const BinOps: set<string> := {"add", "fadd", "sub", "fsub", "mul", "fmul", "udiv", "sdiv", "fdiv", "urem", "srem", "frem"}
  const IntAddSub: set<string> := {"add", "sub"}
  const IntMul: set<string> := {"mul"}
  const IntDiv: set<string> := {"udiv", "sdiv"}
  const IntRem: set<string> := {"urem", "srem"}
  const FloatAddSub: set<string> := {"fadd", "fsub"}
  const FloatMul: set<string> := {"fmul"}
  const FloatDiv: set<string> := {"fdiv"}
  const FloatRem: set<string> := {"frem"}
  const Special: set<string> := {"call"}
  const Bitwise: set<string> := {"shl", "lshr", "ashr", "and", "or", "xor"}
  const Vector: set<string> := {"extractelement", "insertelement", "shufflevector"}
  const Aggregate: set<string> := {"extractvalue", "insertvalue"}

  /** The counter names `gpu_feature_set` uses. */
  const GpuVocabulary: set<string> := {"int_add_sub", "int_mul", "int_div", "int_rem", "float_add_Sub", "float_mul",
    "float_div", "float_rem", "bitwise", "aggregate", "vector", "load", "store", "other"}

  /**
   * The counters `gpu_feature_set::eval_instruction` adds to: a binary
   * operator by its class, then bitwise, aggregate and vector operators,
   * loads, stores and everything else.
   */
  function GpuFeatures(inst: Instruction): seq<string> {
    var n := inst.opcode;
    if n in BinOps then
      if n in IntAddSub then ["int_add_sub"]
      else if n in IntMul then ["int_mul"]
      else if n in IntDiv then ["int_div"]
      else if n in IntRem then ["int_rem"]
      else if n in FloatAddSub then ["float_add_Sub"]
      else if n in FloatMul then ["float_mul"]
      else if n in FloatDiv then ["float_div"]
      else if n in FloatRem then ["float_rem"]
      else if n in Special then ["float_rem"]
      else []
    else if n in Bitwise then ["bitwise"]
    else if n in Aggregate then ["aggregate"]
    else if n in Vector then ["vector"]
    else if IsLoad(inst) then ["load"]
    else if IsStore(inst) then ["store"]
    else ["other"]
  }

  datatype LegacyKind = Gpu | FullLegacy | Grewe11Legacy

  /** The counters `eval_instruction` adds to; the Grewe11 set has no implementation and adds to none. */
  function LegacyFeatures(kind: LegacyKind, inst: Instruction): seq<string> {
    match kind
    case Gpu => GpuFeatures(inst)
    case FullLegacy => [inst.opcode]
    case Grewe11Legacy => []
  }

  /** `raw[name]`, a missing counter reading as 0. */
  function LegacyCount(raw: map<string, int>, name: string): int {
    if name in raw then raw[name] else 0
  }

  /** `add(name)` for each of `names`, in order. */
  function Bumped(raw: map<string, int>, names: seq<string>): map<string, int> {
    if names == [] then raw
    else
      var m := Bumped(raw, names[..|names| - 1]);
      m[names[|names| - 1] := LegacyCount(m, names[|names| - 1]) + 1]
  }

  /** The counters evaluating `instrs` in order adds to, one list after another. */
  function LegacyNames(kind: LegacyKind, instrs: seq<Instruction>): seq<string> {
    if instrs == [] then [] else LegacyNames(kind, instrs[..|instrs| - 1]) + LegacyFeatures(kind, instrs[|instrs| - 1])
  }

  class FeatureCounters {
    const kind: LegacyKind
    var raw: map<string, int>

    constructor (kind: LegacyKind)
      ensures this.kind == kind && raw == map[]
    {
      this.kind := kind;
      raw := map[];
    }

    /** `feature_set::add`: the named counter grows by one. */
    method Add(name: string)
      modifies this
      ensures raw == old(raw)[name := LegacyCount(old(raw), name) + 1]
    {
      var previous := LegacyCount(raw, name);
      raw := raw[name := previous + 1];
    }

    /** `eval_instruction`, dispatched on the kind. */
    method EvalInstruction(inst: Instruction)
      modifies this
      ensures raw == Bumped(old(raw), LegacyFeatures(kind, inst))
    {
      match kind
      case Gpu => GpuEvalInstruction(inst);
      case FullLegacy =>
        Add(inst.opcode);
        assert [inst.opcode][..0] == [];
      case Grewe11Legacy =>
    }

    /** `gpu_feature_set::eval_instruction`; the address-space check only prints. */
    method GpuEvalInstruction(inst: Instruction)
      modifies this
      ensures raw == Bumped(old(raw), GpuFeatures(inst))
    {
      var n := inst.opcode;
      if n in BinOps {
        if n in IntAddSub { Add("int_add_sub"); }
        else if n in IntMul { Add("int_mul"); }
        else if n in IntDiv { Add("int_div"); }
        else if n in IntRem { Add("int_rem"); }
        else if n in FloatAddSub { Add("float_add_Sub"); }
        else if n in FloatMul { Add("float_mul"); }
        else if n in FloatDiv { Add("float_div"); }
        else if n in FloatRem { Add("float_rem"); }
        else {
          // The classes above cover every binary operator, so the `SPECIAL`
          // ("call") test that follows them in the source is never reached.
          assert false;
        }
      } else if n in Bitwise {
        Add("bitwise");
      } else if n in Aggregate {
        Add("aggregate");
      } else if n in Vector {
        Add("vector");
      } else if IsLoad(inst) {
        Add("load");
        var _ := CheckAddrSpace(inst.addrSpace);
      } else if IsStore(inst) {
        Add("store");
        var _ := CheckAddrSpace(inst.addrSpace);
      } else {
        Add("other");
      }
      ghost var names := GpuFeatures(inst);
      assert names == [] || names[..0] == [];
    }
  }

  /** Every instruction adds to exactly one `gpu_feature_set` counter, a binary operator by its class. */
  lemma GpuOneCounter(inst: Instruction)
    ensures |GpuFeatures(inst)| == 1 && GpuFeatures(inst)[0] in GpuVocabulary
    ensures inst.opcode == "call" ==> GpuFeatures(inst) == ["other"]
  {
  }

  /** `add` applied to `names`: each counter grows by the number of times it is named, no other changes. */
  lemma {:induction false} BumpedCount(raw: map<string, int>, names: seq<string>, x: string)
    ensures LegacyCount(Bumped(raw, names), x) == LegacyCount(raw, x) + Occurrences(names, x)
    ensures x in Bumped(raw, names) <==> x in raw || x in names
  {
    if names != [] {
      BumpedCount(raw, names[..|names| - 1], x);
      assert names == names[..|names| - 1] + [names[|names| - 1]];
    }
  }

  /** Adding to the counters of two lists one after the other. */
  lemma {:induction false} BumpedAppend(raw: map<string, int>, a: seq<string>, c: seq<string>)
    ensures Bumped(raw, a + c) == Bumped(Bumped(raw, a), c)
  {
    if c == [] {
      assert a + c == a;
    } else {
      BumpedAppend(raw, a, c[..|c| - 1]);
      assert (a + c)[..|a + c| - 1] == a + c[..|c| - 1];
    }
  }

  /**
   * The gpu and full sets add to one counter per instruction, the Grewe11 set
   * to none.
   */
  lemma {:induction false} LegacyNamesLength(kind: LegacyKind, instrs: seq<Instruction>)
    ensures kind != Grewe11Legacy ==> |LegacyNames(kind, instrs)| == |instrs|
    ensures kind == Grewe11Legacy ==> LegacyNames(kind, instrs) == []
  {
    if instrs != [] {
      LegacyNamesLength(kind, instrs[..|instrs| - 1]);
      GpuOneCounter(instrs[|instrs| - 1]);
    }
  }

  /** Address-space ids of the legacy pass. */
  const PrivateAddressSpace: nat := 0
  const LocalAddressSpace: nat := 1
  const GlobalAddressSpace: nat := 2

  datatype AddressSpaceType = Local | Global | Private | Unknown

  /** `checkAddrSpace`: 1 is local, 2 global, 0 private, anything else unknown (with a warning). */
  method CheckAddrSpace(id: nat) returns (t: AddressSpaceType)
    ensures t == Local <==> id == 1
    ensures t == Global <==> id == 2
    ensures t == Private <==> id == 0
    ensures t == AddressSpaceType.Unknown <==> id > 2
  {
    if id == LocalAddressSpace {
      return Local;
    } else if id == GlobalAddressSpace {
      return Global;
    } else if id == PrivateAddressSpace {
      return Private;
    } else {
      return AddressSpaceType.Unknown;
    }
  }

  /** `feature_eval::eval_BB`: `eval_instruction` once per instruction, in order. */
  method EvalBB(fs: FeatureCounters, bb: Block)
    modifies fs
    ensures fs.raw == Bumped(old(fs.raw), LegacyNames(fs.kind, bb.instrs))
  {
    for k := 0 to |bb.instrs|
      invariant fs.raw == Bumped(old(fs.raw), LegacyNames(fs.kind, bb.instrs[..k]))
    {
      assert bb.instrs[..k + 1][..k] == bb.instrs[..k];
      BumpedAppend(old(fs.raw), LegacyNames(fs.kind, bb.instrs[..k]), LegacyFeatures(fs.kind, bb.instrs[k]));
      fs.EvalInstruction(bb.instrs[k]);
    }
    assert bb.instrs[..|bb.instrs|] == bb.instrs;
  }

  /** `feature_eval::eval_function`: every block in order. */
  method EvalFunction(fs: FeatureCounters, f: Function)
    modifies fs
    ensures fs.raw == Bumped(old(fs.raw), LegacyNames(fs.kind, Instrs(f.blocks)))
  {
    for b := 0 to |f.blocks|
      invariant fs.raw == Bumped(old(fs.raw), LegacyNames(fs.kind, Instrs(f.blocks[..b])))
    {
      assert f.blocks[..b + 1][..b] == f.blocks[..b];
      LegacyNamesAppend(fs.kind, Instrs(f.blocks[..b]), f.blocks[b].instrs);
      BumpedAppend(old(fs.raw), LegacyNames(fs.kind, Instrs(f.blocks[..b])), LegacyNames(fs.kind, f.blocks[b].instrs));
      EvalBB(fs, f.blocks[b]);
    }
    assert f.blocks[..|f.blocks|] == f.blocks;
  }

  lemma {:induction false} LegacyNamesAppend(kind: LegacyKind, a: seq<Instruction>, c: seq<Instruction>)
    ensures LegacyNames(kind, a + c) == LegacyNames(kind, a) + LegacyNames(kind, c)
  {
    if c == [] {
      assert a + c == a;
    } else {
      var init, x := c[..|c| - 1], c[|c| - 1];
      var ac := a + c;
      assert ac[..|ac| - 1] == a + init && ac[|ac| - 1] == x;
      var tail := LegacyFeatures(kind, x);
      assert LegacyNames(kind, ac) == LegacyNames(kind, a + init) + tail;
      assert LegacyNames(kind, c) == LegacyNames(kind, init) + tail;
      LegacyNamesAppend(kind, a, init);
      AppendAssoc(LegacyNames(kind, a), LegacyNames(kind, init), tail);
    }
  }

  lemma AppendAssoc<T>(x: seq<T>, y: seq<T>, z: seq<T>)
    ensures (x + y) + z == x + (y + z)
  {
  }

  /**
   * `feature_eval::runOnFunction`: evaluates the function and reports it
   * unchanged. Normalisation and printing are not part of this model.
   */
  method RunOnFunction(fs: FeatureCounters, f: Function) returns (changed: bool)
    modifies fs
    ensures !changed
    ensures fs.raw == Bumped(old(fs.raw), LegacyNames(fs.kind, Instrs(f.blocks)))
  {
    EvalFunction(fs, f);
    return false;
  }

  /**
   * After the legacy pass on a gpu feature set, the counters together grow by
   * exactly the number of instructions: each counter by the number of
   * instructions classified under it.
   */
  lemma GpuPassCounts(raw: map<string, int>, f: Function, x: string)
    ensures |LegacyNames(Gpu, Instrs(f.blocks))| == |Instrs(f.blocks)|
    ensures LegacyCount(Bumped(raw, LegacyNames(Gpu, Instrs(f.blocks))), x) == LegacyCount(raw, x) + Occurrences(LegacyNames(Gpu, Instrs(f.blocks)), x)
  {
    LegacyNamesLength(Gpu, Instrs(f.blocks));
    BumpedCount(raw, LegacyNames(Gpu, Instrs(f.blocks)), x);
  }
}
