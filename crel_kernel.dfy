/**
 * `crel_kernel`: one kernel function with its runtime variables, the
 * per-block feature polynomials, the loop multipliers and the final features.
 *
 * Blocks and loops are named by number (block index, loop id) where the
 * source keys its maps by pointer. The polynomials the maps hold are copied
 * in and out by value in the source, so they are `Poly` values here.
 */
module CrelKernel {
  import opened Rationals
  import opened Mpoly
  import opened Ir

  /**
   * `crel_variable`: a polynomial unknown, its name, the id of the LLVM value
   * it stands for, its argument position or geometry dimension, and whether
   * it is a kernel argument.
   */
  datatype RuntimeVar = RuntimeVar(name: string, value: nat, valueIndex: int, isKernelArg: bool)

  // ---------------------------------------------------------------------------
  // Runtime-variable discovery
  // ---------------------------------------------------------------------------

  /** The variable of argument `i`: named `k<i>`, standing for the argument itself. */
  function ArgVar(a: Argument, i: nat): RuntimeVar
  {
    RuntimeVar("k" + NatToString(i), a.id, i, true)
  }

  /** The variables of the arguments, in declaration order, pointer or not. */
  function ArgVars(args: seq<Argument>): (r: seq<RuntimeVar>)
    ensures |r| == |args|
    ensures forall i | 0 <= i < |args| :: r[i] == ArgVar(args[i], i)
  {
    if args == [] then [] else ArgVars(args[..|args| - 1]) + [ArgVar(args[|args| - 1], |args| - 1)]
  }

  /**
   * The prefix of the variable a call to `identifier` introduces. The first
   * of get_global_id, get_local_id, get_global_size and get_local_size that
   * occurs in the name decides.
   */
  function GeometryPrefix(identifier: string): Option<string>
  {
    if Contains(identifier, "get_global_id") then Some("g")
    else if Contains(identifier, "get_local_id") then Some("l")
    else if Contains(identifier, "get_global_size") then Some("s")
    else if Contains(identifier, "get_local_size") then Some("z")
    else None
  }

  /** A direct call of a work-item geometry query. */
  predicate IsGeometryCall(inst: Instruction)
  {
    inst.opcode == "call" && inst.callee.Some? && GeometryPrefix(inst.callee.value.identifier).Some?
  }

  /**
   * The constructor reads the dimension of a geometry query as a constant
   * integer (a null dereference otherwise) and needs the callee of every call.
   */
  predicate DiscoverableInstr(inst: Instruction)
  {
    !IsIndirectCall(inst) &&
    (IsGeometryCall(inst) ==> |inst.operands| > 0 && inst.operands[0].ConstInt? && Int64(inst.operands[0].value))
  }

  predicate Discoverable(f: Function)
  {
    forall b, k | 0 <= b < |f.blocks| && 0 <= k < |f.blocks[b].instrs| :: DiscoverableInstr(f.blocks[b].instrs[k])
  }

  /** The variable a geometry call introduces: prefix plus dimension, standing for the call's result. */
  function GeometryVar(inst: Instruction): RuntimeVar
    requires IsGeometryCall(inst) && DiscoverableInstr(inst)
  {
    var d := inst.operands[0].value;
    RuntimeVar(GeometryPrefix(inst.callee.value.identifier).value + IntToString(d), inst.id, d, false)
  }

  /** The geometry variables of a run of instructions: one per call site, in order. */
  function InstrGeometryVars(instrs: seq<Instruction>): seq<RuntimeVar>
    requires forall k | 0 <= k < |instrs| :: DiscoverableInstr(instrs[k])
  {
    if instrs == [] then []
    else
      var last := instrs[|instrs| - 1];
      InstrGeometryVars(instrs[..|instrs| - 1]) + (if IsGeometryCall(last) then [GeometryVar(last)] else [])
  }

  predicate BlocksDiscoverable(blocks: seq<Block>)
  {
    forall b, k | 0 <= b < |blocks| && 0 <= k < |blocks[b].instrs| :: DiscoverableInstr(blocks[b].instrs[k])
  }

  /** The geometry variables of the blocks, block by block. */
  function GeometryVars(blocks: seq<Block>): seq<RuntimeVar>
    requires BlocksDiscoverable(blocks)
  {
    if blocks == [] then []
    else
      var last := blocks[|blocks| - 1];
      assert forall k | 0 <= k < |last.instrs| :: DiscoverableInstr(last.instrs[k]);
      GeometryVars(blocks[..|blocks| - 1]) + InstrGeometryVars(last.instrs)
  }

  /** The runtime variables of a kernel: its arguments, then its geometry calls. */
  function DiscoverVars(f: Function): seq<RuntimeVar>
    requires Discoverable(f)
  {
    assert BlocksDiscoverable(f.blocks);
    ArgVars(f.args) + GeometryVars(f.blocks)
  }

  /** A geometry query's variable is never a kernel argument. */
  lemma {:induction false} InstrGeometryVarsNotArgs(instrs: seq<Instruction>)
    requires forall k | 0 <= k < |instrs| :: DiscoverableInstr(instrs[k])
    ensures forall i | 0 <= i < |InstrGeometryVars(instrs)| ::
              !InstrGeometryVars(instrs)[i].isKernelArg &&
              exists k | 0 <= k < |instrs| :: IsGeometryCall(instrs[k]) && InstrGeometryVars(instrs)[i].value == instrs[k].id
  {
    if instrs != [] {
      var init := instrs[..|instrs| - 1];
      InstrGeometryVarsNotArgs(init);
      var r := InstrGeometryVars(instrs);
      forall i | 0 <= i < |r|
        ensures !r[i].isKernelArg && exists k | 0 <= k < |instrs| :: IsGeometryCall(instrs[k]) && r[i].value == instrs[k].id
      {
        if i < |InstrGeometryVars(init)| {
          assert r[i] == InstrGeometryVars(init)[i];
          var k :| 0 <= k < |init| && IsGeometryCall(init[k]) && InstrGeometryVars(init)[i].value == init[k].id;
          assert instrs[k] == init[k];
        } else {
          assert IsGeometryCall(instrs[|instrs| - 1]);
        }
      }
    }
  }

  lemma {:induction false} GeometryVarsNotArgs(blocks: seq<Block>)
    requires BlocksDiscoverable(blocks)
    ensures forall i | 0 <= i < |GeometryVars(blocks)| :: !GeometryVars(blocks)[i].isKernelArg
  {
    if blocks != [] {
      var last := blocks[|blocks| - 1];
      assert forall k | 0 <= k < |last.instrs| :: DiscoverableInstr(last.instrs[k]);
      GeometryVarsNotArgs(blocks[..|blocks| - 1]);
      InstrGeometryVarsNotArgs(last.instrs);
    }
  }

  /**
   * Every argument, pointer or not, becomes the variable `k<i>` at position
   * i, and exactly these first `|args|` variables are kernel arguments: the
   * geometry variables all come after them.
   */
  lemma DiscoverVarsArgsFirst(f: Function)
    requires Discoverable(f)
    ensures |DiscoverVars(f)| >= |f.args|
    ensures forall i | 0 <= i < |f.args| ::
              DiscoverVars(f)[i] == RuntimeVar("k" + NatToString(i), f.args[i].id, i, true)
    ensures forall i | 0 <= i < |DiscoverVars(f)| :: DiscoverVars(f)[i].isKernelArg <==> i < |f.args|
  {
    assert BlocksDiscoverable(f.blocks);
    GeometryVarsNotArgs(f.blocks);
  }

  /** The name of a geometry variable: the first matching query in priority order decides its prefix. */
  lemma GeometryPrefixPriority(identifier: string)
    ensures GeometryPrefix(identifier) == Some("g") <==> Contains(identifier, "get_global_id")
    ensures GeometryPrefix(identifier) == Some("l") <==>
              !Contains(identifier, "get_global_id") && Contains(identifier, "get_local_id")
    ensures GeometryPrefix(identifier) == Some("s") <==>
              !Contains(identifier, "get_global_id") && !Contains(identifier, "get_local_id") &&
              Contains(identifier, "get_global_size")
    ensures GeometryPrefix(identifier) == Some("z") <==>
              !Contains(identifier, "get_global_id") && !Contains(identifier, "get_local_id") &&
              !Contains(identifier, "get_global_size") && Contains(identifier, "get_local_size")
    ensures GeometryPrefix(identifier).None? <==>
              !Contains(identifier, "get_global_id") && !Contains(identifier, "get_local_id") &&
              !Contains(identifier, "get_global_size") && !Contains(identifier, "get_local_size")
  {
  }

  /** Call sites are not de-duplicated: every geometry call adds one variable. */
  lemma {:induction false} InstrGeometryVarsCount(instrs: seq<Instruction>, extra: Instruction)
    requires forall k | 0 <= k < |instrs| :: DiscoverableInstr(instrs[k])
    requires DiscoverableInstr(extra) && IsGeometryCall(extra)
    ensures InstrGeometryVars(instrs + [extra]) == InstrGeometryVars(instrs) + [GeometryVar(extra)]
  {
    assert (instrs + [extra])[..|instrs|] == instrs;
  }

  // ---------------------------------------------------------------------------
  // Per-block feature maps
  // ---------------------------------------------------------------------------

  type FeatureMap = map<nat, map<string, Poly>>

  /** `bbFeatures[bb][f]`, where a missing entry reads as a freshly created zero polynomial. */
  function FeatureOf(bbf: FeatureMap, bb: nat, f: string): Poly
  {
    if bb in bbf && f in bbf[bb] then bbf[bb][f] else map[]
  }

  /** The features of block `bb`, created empty when missing. */
  function Row(bbf: FeatureMap, bb: nat): map<string, Poly>
  {
    if bb in bbf then bbf[bb] else map[]
  }

  /** `bbFeatures[bb][f].add(p)`: both missing levels are created on the way. */
  function AddFeature(bbf: FeatureMap, bb: nat, f: string, p: Poly): FeatureMap
  {
    bbf[bb := Row(bbf, bb)[f := Plus(FeatureOf(bbf, bb, f), p)]]
  }

  /** Adding to one entry changes that entry by `p` and no other entry. */
  lemma AddFeatureEffect(bbf: FeatureMap, bb: nat, f: string, p: Poly, bb': nat, f': string)
    ensures bb in AddFeature(bbf, bb, f, p) && f in AddFeature(bbf, bb, f, p)[bb]
    ensures FeatureOf(AddFeature(bbf, bb, f, p), bb', f') ==
            if bb' == bb && f' == f then Plus(FeatureOf(bbf, bb, f), p) else FeatureOf(bbf, bb', f')
    ensures AddFeature(bbf, bb, f, p).Keys == bbf.Keys + {bb}
  {
  }

  /** Every polynomial of the map is over `n` variables. */
  ghost predicate FeatureMapOver(bbf: FeatureMap, n: nat)
  {
    forall bb, f | bb in bbf && f in bbf[bb] :: WellFormed(bbf[bb][f], n)
  }

  lemma AddFeatureOver(bbf: FeatureMap, bb: nat, f: string, p: Poly, n: nat)
    requires FeatureMapOver(bbf, n) && WellFormed(p, n)
    ensures FeatureMapOver(AddFeature(bbf, bb, f, p), n)
  {
    WellFormedPlus(FeatureOf(bbf, bb, f), p, n);
  }

  // ---------------------------------------------------------------------------
  // The kernel object
  // ---------------------------------------------------------------------------

  /** The state of a kernel object, as a value. */
  datatype KernelView = KernelView(
    name: string,
    runtimeVars: seq<RuntimeVar>,
    instructionNum: int,
    bbFeatures: FeatureMap,
    loopMultipliers: map<nat, Poly>,
    features: map<string, Poly>)

  /** The state `crel_kernel()` creates. */
  function DefaultView(): KernelView {
    KernelView("", [], 0, map[], map[], map[])
  }

  /** The state `crel_kernel(function)` creates. */
  function InitialView(f: Function): KernelView
    requires Discoverable(f)
  {
    KernelView(f.name, DiscoverVars(f), 0, map[], map[], map[])
  }

  /** `add(bb, feature, p)` on a kernel state. */
  function AddToView(v: KernelView, bb: nat, feature: string, p: Poly): KernelView {
    v.(bbFeatures := AddFeature(v.bbFeatures, bb, feature, p), instructionNum := v.instructionNum + 1)
  }

  /** The polynomials of a kernel state are over its runtime variables. */
  ghost predicate ViewValid(v: KernelView) {
    FeatureMapOver(v.bbFeatures, |v.runtimeVars|) &&
    (forall l | l in v.loopMultipliers :: WellFormed(v.loopMultipliers[l], |v.runtimeVars|)) &&
    (forall f | f in v.features :: WellFormed(v.features[f], |v.runtimeVars|))
  }

  class CrelKernel {
    const name: string
    const runtimeVars: seq<RuntimeVar>
    var instructionNum: int
    var bbFeatures: FeatureMap
    var loopMultipliers: map<nat, Poly>
    var features: map<string, Poly>

    /** Every polynomial of the kernel is over its runtime variables. */
    ghost predicate Valid()
      reads this
    {
      ViewValid(View())
    }

    ghost function View(): KernelView
      reads this
    {
      KernelView(name, runtimeVars, instructionNum, bbFeatures, loopMultipliers, features)
    }

    /** `crel_kernel()`: the entry a map lookup creates for an unknown kernel. */
    constructor Default()
      ensures Valid() && name == "" && runtimeVars == [] && instructionNum == 0
      ensures bbFeatures == map[] && loopMultipliers == map[] && features == map[]
    {
      name := "";
      runtimeVars := [];
      instructionNum := 0;
      bbFeatures := map[];
      loopMultipliers := map[];
      features := map[];
    }

    /**
     * `crel_kernel(function)`: one variable per argument, then one per
     * geometry call site in block and instruction order.
     */
    constructor (f: Function)
      requires Discoverable(f)
      ensures Valid() && name == f.name && runtimeVars == DiscoverVars(f) && instructionNum == 0
      ensures bbFeatures == map[] && loopMultipliers == map[] && features == map[]
    {
      var argVars := ArgumentVars(f.args);
      assert BlocksDiscoverable(f.blocks);
      var callVars := CallVars(f.blocks);
      name := f.name;
      runtimeVars := argVars + callVars;
      instructionNum := 0;
      bbFeatures := map[];
      loopMultipliers := map[];
      features := map[];
    }

    /** The constructor's first loop: one variable per kernel argument. */
    static method ArgumentVars(args: seq<Argument>) returns (vars: seq<RuntimeVar>)
      ensures vars == ArgVars(args)
    {
      vars := [];
      var i := 0;
      while i < |args|
        invariant 0 <= i <= |args|
        invariant vars == ArgVars(args[..i])
      {
        assert args[..i + 1][..i] == args[..i];
        vars := vars + [ArgVar(args[i], i)];
        i := i + 1;
      }
      assert args[..i] == args;
    }

    /** The constructor's second loop: the geometry calls, block by block. */
    static method CallVars(blocks: seq<Block>) returns (vars: seq<RuntimeVar>)
      requires BlocksDiscoverable(blocks)
      ensures vars == GeometryVars(blocks)
    {
      vars := [];
      var b := 0;
      while b < |blocks|
        invariant 0 <= b <= |blocks|
        invariant vars == GeometryVars(blocks[..b])
      {
        assert forall k | 0 <= k < |blocks[b].instrs| :: DiscoverableInstr(blocks[b].instrs[k]);
        var blockVars := CallSiteVars(blocks[b].instrs);
        vars := vars + blockVars;
        assert blocks[..b + 1][..b] == blocks[..b];
        b := b + 1;
      }
      assert blocks[..b] == blocks;
    }

    /** The inner loop of the constructor: the geometry calls of one block. */
    static method CallSiteVars(instrs: seq<Instruction>) returns (vars: seq<RuntimeVar>)
      requires forall k | 0 <= k < |instrs| :: DiscoverableInstr(instrs[k])
      ensures vars == InstrGeometryVars(instrs)
    {
      vars := [];
      var k := 0;
      while k < |instrs|
        invariant 0 <= k <= |instrs|
        invariant vars == InstrGeometryVars(instrs[..k])
      {
        var inst := instrs[k];
        assert instrs[..k + 1][..k] == instrs[..k];
        if inst.opcode == "call" {
          var prefix := GeometryPrefix(inst.callee.value.identifier);
          if prefix.Some? {
            vars := vars + [GeometryVar(inst)];
          }
        }
        k := k + 1;
      }
      assert instrs[..k] == instrs;
    }

    /** `add(bb, feature, contribution)`: the constant is added to one block feature. */
    method Add(bb: nat, feature: string, contribution: nat)
      requires Valid() && contribution < 0x1_0000_0000
      modifies this
      ensures Valid()
      ensures bbFeatures == AddFeature(old(bbFeatures), bb, feature, Const(|runtimeVars|, IntQ(contribution)))
      ensures instructionNum == old(instructionNum) + 1
      ensures loopMultipliers == old(loopMultipliers) && features == old(features)
      ensures View() == AddToView(old(View()), bb, feature, Const(|runtimeVars|, IntQ(contribution)))
    {
      AddFeatureOver(bbFeatures, bb, feature, Const(|runtimeVars|, IntQ(contribution)), |runtimeVars|);
      bbFeatures := AddFeature(bbFeatures, bb, feature, Const(|runtimeVars|, IntQ(contribution)));
      instructionNum := instructionNum + 1;
    }

    /** `add(bb, feature, poly)`: the polynomial is added to one block feature. */
    method AddPoly(bb: nat, feature: string, p: Poly)
      requires Valid() && WellFormed(p, |runtimeVars|)
      modifies this
      ensures Valid()
      ensures bbFeatures == AddFeature(old(bbFeatures), bb, feature, p)
      ensures instructionNum == old(instructionNum) + 1
      ensures loopMultipliers == old(loopMultipliers) && features == old(features)
      ensures View() == AddToView(old(View()), bb, feature, p)
    {
      AddFeatureOver(bbFeatures, bb, feature, p, |runtimeVars|);
      bbFeatures := AddFeature(bbFeatures, bb, feature, p);
      instructionNum := instructionNum + 1;
    }

    /** `getVarNames`: the variable names in variable order. */
    method GetVarNames() returns (names: seq<string>)
      ensures |names| == |runtimeVars|
      ensures forall i | 0 <= i < |names| :: names[i] == runtimeVars[i].name
    {
      names := [];
      var i := 0;
      while i < |runtimeVars|
        invariant 0 <= i <= |runtimeVars|
        invariant |names| == i
        invariant forall j | 0 <= j < i :: names[j] == runtimeVars[j].name
      {
        names := names + [runtimeVars[i].name];
        i := i + 1;
      }
    }
  }
}
