/**
 * The counter feature sets `FeatureSet`, `Fan19FeatureSet`,
 * `Grewe11FeatureSet` and `FullFeatureSet`: named instruction counters that
 * each evaluated instruction adds its contribution to.
 */
module CounterFeatureSet {
  import opened Ir
  import opened MemAccess
  import CrelClassify

  /** `raw` holds `unsigned` counters. */
  const U32: int := 0x1_0000_0000
  type u32 = x: int | 0 <= x < U32

  const IntAddSub: set<string> := {"add", "sub"}
  const IntMul: set<string> := {"mul"}
  const IntDiv: set<string> := {"udiv", "sdiv", "sdivrem"}
  const FloatAddSub: set<string> := {"fadd", "fsub"}
  const FloatMul: set<string> := {"fmul"}
  const FloatDiv: set<string> := {"fdiv"}
  const FnameSpecial: set<string> := {"sqrt", "exp", "log", "abs", "fabs", "max", "pow", "floor"}
  const Bitwise: set<string> := {"shl", "lshr", "ashr", "and", "or", "xor"}
  const Barrier: set<string> := {"barrier", "sub_group_reduce"}
  /** The intrinsic list is the cost-relation classifier's, stray quote included. */
  const Intrinsics: set<string> := CrelClassify.CompIntrinsics

  /** `instr_check`: the name is one of the set. */
  predicate InstrCheck(name: string, s: set<string>) {
    name in s
  }

  /** `instr_contains`: some element of the set occurs in the name. */
  predicate InstrContains(name: string, s: set<string>) {
    exists x | x in s :: Contains(name, x)
  }

  datatype Kind = Fan19 | Grewe11 | Full

  /** The names the three registered instances are built with. */
  function KindName(kind: Kind): string {
    match kind
    case Fan19 => "fan19"
    case Grewe11 => "grewe11"
    case Full => "full"
  }

  /** The counters `Fan19FeatureSet::reset` and `Grewe11FeatureSet::reset` install. */
  const Fan19Counters: seq<string> := ["int_add", "int_mul", "int_div", "int_bw", "flt_add", "flt_mul", "flt_div", "sp_fun", "mem_gl", "mem_loc"]
  const Grewe11Counters: seq<string> := ["int", "int4", "float", "float4", "math", "barrier", "mem_acc", "mem_loc", "mem_coal"]

  /** A call counted as a special function: an intrinsic by its intrinsic name, any other callee by its identifier. */
  predicate SpecialCall(c: Callee) {
    if c.intrinsic.Some? then InstrContains(c.intrinsic.value, Intrinsics) else InstrContains(c.identifier, FnameSpecial)
  }

  /**
   * The counters `Fan19FeatureSet::eval` adds to, in order. The ignore lists
   * of the source only decide whether a warning is printed.
   */
  function Fan19Features(inst: Instruction): seq<string>
    requires !IsIndirectCall(inst)
  {
    var n := inst.opcode;
    if n in IntAddSub then ["int_add"]
    else if n in IntMul then ["int_mul"]
    else if n in IntDiv then ["int_div"]
    else if n in Bitwise then ["int_bw"]
    else if n in FloatAddSub then ["flt_add"]
    else if n in FloatMul then ["flt_mul"]
    else if n in FloatDiv then ["flt_div"]
    else if n == "call" then (if SpecialCall(inst.callee.value) then ["sp_fun"] else [])
    else if IsLoad(inst) || IsStore(inst) then
      (if IsLocalMemoryAccess(inst.addrSpace) then ["mem_gl"] else []) +
      (if IsGlobalMemoryAccess(inst.addrSpace) then ["mem_loc"] else [])
    else []
  }

  /** The counters `Grewe11FeatureSet::eval` adds to, in order. */
  function Grewe11Features(inst: Instruction): seq<string>
    requires !IsIndirectCall(inst)
  {
    var n := inst.opcode;
    if n in IntAddSub || n in IntMul || n in IntDiv || n in Bitwise then ["int"]
    else if n in FloatAddSub || n in FloatMul || n in FloatDiv then ["float"]
    else if n == "call" then
      var c := inst.callee.value;
      if c.intrinsic.Some? then (if InstrContains(c.intrinsic.value, Intrinsics) then ["math"] else [])
      else if InstrContains(c.identifier, FnameSpecial) then ["math"]
      else if InstrContains(c.identifier, Barrier) then ["barrier"]
      else []
    else if IsLoad(inst) || IsStore(inst) then
      ["mem_acc"] + (if IsLocalMemoryAccess(inst.addrSpace) then ["mem_loc"] else [])
    else []
  }

  /**
   * The instructions `eval` of a kind accepts: Fan19 and Grewe11 look up the
   * callee of every call, which an indirect call does not have; Full reads
   * only the opcode name.
   */
  predicate Evaluable(kind: Kind, inst: Instruction) {
    kind == Full || !IsIndirectCall(inst)
  }

  /** The counters `eval` adds to for each kind; `FullFeatureSet` counts the opcode itself. */
  function Features(kind: Kind, inst: Instruction): seq<string>
    requires Evaluable(kind, inst)
  {
    match kind
    case Fan19 => Fan19Features(inst)
    case Grewe11 => Grewe11Features(inst)
    case Full => [inst.opcode]
  }

  /** The counter state `add` works on. */
  datatype Counters = Counters(raw: map<string, u32>, instructionNum: int, totContrib: int)

  /** `raw[name]`, a missing counter reading as 0. */
  function Count(raw: map<string, u32>, name: string): u32 {
    if name in raw then raw[name] else 0
  }

  /** `add(name, c)`. */
  function Added(v: Counters, name: string, c: int): Counters {
    Counters(v.raw[name := (Count(v.raw, name) + c) % U32], v.instructionNum + 1, v.totContrib + c)
  }

  /** `add(name, c)` for each of `names`, in order. */
  function AddedAll(v: Counters, names: seq<string>, c: int): Counters {
    if names == [] then v else Added(AddedAll(v, names[..|names| - 1], c), names[|names| - 1], c)
  }

  class FeatureSet {
    const kind: Kind
    const name: string
    var raw: map<string, u32>
    var feat: map<string, real>
    var instructionNum: int
    var totContrib: int

    function View(): Counters
      reads this
    {
      Counters(raw, instructionNum, totContrib)
    }

    /**
     * A registered instance. The source leaves both instruction counters
     * uninitialised, so their first values are parameters here.
     */
    constructor (kind: Kind, instructionNum: int, totContrib: int)
      ensures this.kind == kind && name == KindName(kind)
      ensures raw == map[] && feat == map[]
      ensures this.instructionNum == instructionNum && this.totContrib == totContrib
    {
      this.kind := kind;
      name := KindName(kind);
      raw := map[];
      feat := map[];
      this.instructionNum := instructionNum;
      this.totContrib := totContrib;
    }

    /** `add`: the named counter grows by the contribution, one more instruction is counted. */
    method Add(featureName: string, contribution: int)
      modifies this
      ensures View() == Added(old(View()), featureName, contribution)
      ensures feat == old(feat)
    {
      var previous := Count(raw, featureName);
      raw := raw[featureName := (previous + contribution) % U32];
      instructionNum := instructionNum + 1;
      totContrib := totContrib + contribution;
    }

    /** `FeatureSet::reset`: every existing entry becomes 0, no key is removed. */
    method ResetAll()
      modifies this
      ensures raw.Keys == old(raw).Keys && forall k | k in raw :: raw[k] == 0
      ensures feat.Keys == old(feat).Keys && forall k | k in feat :: feat[k] == 0.0
      ensures instructionNum == 0 && totContrib == 0
    {
      var rawKeys := raw.Keys;
      while rawKeys != {}
        invariant rawKeys <= raw.Keys && raw.Keys == old(raw).Keys
        invariant forall k | k in raw && k !in rawKeys :: raw[k] == 0
        invariant feat == old(feat)
        decreases rawKeys
      {
        var k :| k in rawKeys;
        raw := raw[k := 0];
        rawKeys := rawKeys - {k};
      }
      var featKeys := feat.Keys;
      while featKeys != {}
        invariant featKeys <= feat.Keys && feat.Keys == old(feat).Keys
        invariant forall k | k in feat && k !in featKeys :: feat[k] == 0.0
        invariant raw.Keys == old(raw).Keys && forall k | k in raw :: raw[k] == 0
        decreases featKeys
      {
        var k :| k in featKeys;
        feat := feat[k := 0.0];
        featKeys := featKeys - {k};
      }
      instructionNum := 0;
      totContrib := 0;
    }

    /** `Fan19FeatureSet::reset`: its ten counters are set to 0; nothing else changes. */
    method Fan19Reset()
      modifies this
      ensures raw.Keys == old(raw).Keys + set k | k in Fan19Counters
      ensures forall k | k in Fan19Counters :: raw[k] == 0
      ensures forall k | k in old(raw) && k !in Fan19Counters :: raw[k] == old(raw)[k]
      ensures feat == old(feat) && instructionNum == old(instructionNum) && totContrib == old(totContrib)
    {
      raw := raw["int_add" := 0]["int_mul" := 0]["int_div" := 0]["int_bw" := 0]["flt_add" := 0];
      raw := raw["flt_mul" := 0]["flt_div" := 0]["sp_fun" := 0]["mem_gl" := 0]["mem_loc" := 0];
    }

    /** `Grewe11FeatureSet::reset`: its nine counters are set to 0; nothing else changes. */
    method Grewe11Reset()
      modifies this
      ensures raw.Keys == old(raw).Keys + set k | k in Grewe11Counters
      ensures forall k | k in Grewe11Counters :: raw[k] == 0
      ensures forall k | k in old(raw) && k !in Grewe11Counters :: raw[k] == old(raw)[k]
      ensures feat == old(feat) && instructionNum == old(instructionNum) && totContrib == old(totContrib)
    {
      raw := raw["int" := 0]["int4" := 0]["float" := 0]["float4" := 0]["math" := 0];
      raw := raw["barrier" := 0]["mem_acc" := 0]["mem_loc" := 0]["mem_coal" := 0];
    }

    /** `reset`, dispatched on the kind: `FullFeatureSet` keeps the base version. */
    method Reset()
      modifies this
      ensures kind == Fan19 ==> raw.Keys == old(raw).Keys + (set k | k in Fan19Counters) && feat == old(feat)
      ensures kind == Fan19 ==> forall k | k in Fan19Counters :: raw[k] == 0
      ensures kind == Fan19 ==> forall k | k in old(raw) && k !in Fan19Counters :: raw[k] == old(raw)[k]
      ensures kind == Grewe11 ==> raw.Keys == old(raw).Keys + (set k | k in Grewe11Counters) && feat == old(feat)
      ensures kind == Grewe11 ==> forall k | k in Grewe11Counters :: raw[k] == 0
      ensures kind == Grewe11 ==> forall k | k in old(raw) && k !in Grewe11Counters :: raw[k] == old(raw)[k]
      ensures kind != Full ==> instructionNum == old(instructionNum) && totContrib == old(totContrib)
      ensures kind == Full ==> raw.Keys == old(raw).Keys && forall k | k in raw :: raw[k] == 0
      ensures kind == Full ==> feat.Keys == old(feat).Keys && forall k | k in feat :: feat[k] == 0.0
      ensures kind == Full ==> instructionNum == 0 && totContrib == 0
    {
      match kind
      case Fan19 => Fan19Reset();
      case Grewe11 => Grewe11Reset();
      case Full => ResetAll();
    }

    /** `eval(inst, contribution)`: the contribution is added to each counter the kind's rules name. */
    method Eval(inst: Instruction, contribution: int)
      requires Evaluable(kind, inst)
      modifies this
      ensures View() == AddedAll(old(View()), Features(kind, inst), contribution)
      ensures feat == old(feat)
    {
      match kind
      case Fan19 => Fan19Eval(inst, contribution);
      case Grewe11 => Grewe11Eval(inst, contribution);
      case Full => Add(inst.opcode, contribution);
    }

    /** `Fan19FeatureSet::eval`: the first matching rule adds and returns. */
    method Fan19Eval(inst: Instruction, contribution: int)
      requires !IsIndirectCall(inst)
      modifies this
      ensures View() == AddedAll(old(View()), Fan19Features(inst), contribution)
      ensures feat == old(feat)
    {
      var n := inst.opcode;
      if InstrCheck(n, IntAddSub) { Add("int_add", contribution); return; }
      if InstrCheck(n, IntMul) { Add("int_mul", contribution); return; }
      if InstrCheck(n, IntDiv) { Add("int_div", contribution); return; }
      if InstrCheck(n, Bitwise) { Add("int_bw", contribution); return; }
      if InstrCheck(n, FloatAddSub) { Add("flt_add", contribution); return; }
      if InstrCheck(n, FloatMul) { Add("flt_mul", contribution); return; }
      if InstrCheck(n, FloatDiv) { Add("flt_div", contribution); return; }
      if n == "call" {
        var callee := inst.callee.value;
        if callee.intrinsic.Some? {
          if InstrContains(callee.intrinsic.value, Intrinsics) {
            Add("sp_fun", contribution);
          }
          return;
        }
        if InstrContains(callee.identifier, FnameSpecial) {
          Add("sp_fun", contribution);
        }
        return;
      }
      if IsLoad(inst) || IsStore(inst) {
        if IsLocalMemoryAccess(inst.addrSpace) {
          Add("mem_gl", contribution);
        }
        if IsGlobalMemoryAccess(inst.addrSpace) {
          Add("mem_loc", contribution);
        }
        return;
      }
    }

    /** `Grewe11FeatureSet::eval`. */
    method Grewe11Eval(inst: Instruction, contribution: int)
      requires !IsIndirectCall(inst)
      modifies this
      ensures View() == AddedAll(old(View()), Grewe11Features(inst), contribution)
      ensures feat == old(feat)
    {
      var n := inst.opcode;
      if InstrCheck(n, IntAddSub) { Add("int", contribution); return; }
      if InstrCheck(n, IntMul) { Add("int", contribution); return; }
      if InstrCheck(n, IntDiv) { Add("int", contribution); return; }
      if InstrCheck(n, Bitwise) { Add("int", contribution); return; }
      if InstrCheck(n, FloatAddSub) { Add("float", contribution); return; }
      if InstrCheck(n, FloatMul) { Add("float", contribution); return; }
      if InstrCheck(n, FloatDiv) { Add("float", contribution); return; }
      if n == "call" {
        var callee := inst.callee.value;
        if callee.intrinsic.Some? {
          if InstrContains(callee.intrinsic.value, Intrinsics) {
            Add("math", contribution);
          }
          return;
        }
        if InstrContains(callee.identifier, FnameSpecial) {
          Add("math", contribution);
        } else if InstrContains(callee.identifier, Barrier) {
          Add("barrier", contribution);
        }
        // A call is neither a load nor a store: the rules below do not apply to it.
        return;
      }
      if IsLoad(inst) || IsStore(inst) {
        Add("mem_acc", contribution);
        assert AddedAll(old(View()), ["mem_acc"], contribution) == View() by {
          assert ["mem_acc"][..0] == [];
        }
        if IsLocalMemoryAccess(inst.addrSpace) {
          Add("mem_loc", contribution);
          assert ["mem_acc", "mem_loc"][..1] == ["mem_acc"];
        }
        return;
      }
    }

    /**
     * `Grewe11FeatureSet::normalize`: `mem_coal` becomes the integer ratio of
     * coalesced to all pointer-argument accesses, 0 when there is none.
     */
    method Grewe11Normalize(f: Function)
      requires kind == Grewe11 && Analysable(f)
      modifies this
      ensures feat == old(feat)["mem_coal" := MemCoal(f) as real]
      ensures View() == old(View())
    {
      var cma := GetCoalescedMemAccess(f);
      if cma.memAccess == 0 {
        feat := feat["mem_coal" := 0.0];
      } else {
        feat := feat["mem_coal" := (cma.memCoalesced / cma.memAccess) as real];
      }
    }
  }

  /** The value `Grewe11FeatureSet::normalize` stores, as an integer. */
  function MemCoal(f: Function): nat {
    if |GepSet(f)| == 0 then 0 else Coalesced(f) / |GepSet(f)|
  }

  /** Without pointer arguments there are no accesses and `mem_coal` is 0. */
  lemma MemCoalWithoutPointers(f: Function)
    requires forall a | a in f.args :: !a.isPointer
    ensures MemCoal(f) == 0
  {
    NoPointerArgs(f);
  }

  /**
   * `add` applied to `names`: each counter grows by the contribution once per
   * occurrence of its name, modulo 2^32.
   */
  lemma {:induction false} AddedAllCount(v: Counters, names: seq<string>, c: int, x: string)
    ensures Count(AddedAll(v, names, c).raw, x) == (Count(v.raw, x) + Occurrences(names, x) * c) % U32
  {
    if names != [] {
      var init := names[..|names| - 1];
      var last := names[|names| - 1];
      AddedAllCount(v, init, c, x);
      var k := Occurrences(init, x);
      var before := AddedAll(v, init, c);
      assert AddedAll(v, names, c) == Added(before, last, c);
      if last == x {
        assert Occurrences(names, x) == k + 1;
        ModAddStep(Count(v.raw, x) + k * c, c);
        MulSucc(k, c);
      } else {
        assert Occurrences(names, x) == k;
      }
    }
  }

  lemma MulSucc(k: int, c: int)
    ensures (k + 1) * c == k * c + c
  {
  }

  /** `add` applied to `names` creates exactly the counters named and removes none. */
  lemma {:induction false} AddedAllKeys(v: Counters, names: seq<string>, c: int)
    ensures AddedAll(v, names, c).raw.Keys == v.raw.Keys + set x | x in names
  {
    if names != [] {
      var init := names[..|names| - 1];
      AddedAllKeys(v, init, c);
      assert names == init + [names[|names| - 1]];
    }
  }

  /** `add` applied to `names` counts one instruction and one contribution per name. */
  lemma {:induction false} AddedAllTotals(v: Counters, names: seq<string>, c: int)
    ensures AddedAll(v, names, c).instructionNum == v.instructionNum + |names|
    ensures AddedAll(v, names, c).totContrib == v.totContrib + |names| * c
  {
    if names != [] {
      AddedAllTotals(v, names[..|names| - 1], c);
      assert |names| * c == (|names| - 1) * c + c;
    }
  }

  /** Adding to a counter after wrapping is the same as wrapping after adding. */
  lemma ModAddStep(a: int, c: int)
    ensures (a % U32 + c) % U32 == (a + c) % U32
  {
    var q := a / U32;
    assert a == q * U32 + a % U32;
    assert a + c == q * U32 + (a % U32 + c);
  }

  /** Fan19's arithmetic rules, both ways: the first matching opcode set decides the counter. */
  lemma Fan19Arithmetic(inst: Instruction)
    requires !IsIndirectCall(inst)
    ensures Fan19Features(inst) == ["int_add"] <==> inst.opcode in IntAddSub
    ensures Fan19Features(inst) == ["int_mul"] <==> inst.opcode in IntMul
    ensures Fan19Features(inst) == ["int_div"] <==> inst.opcode in IntDiv
    ensures Fan19Features(inst) == ["int_bw"] <==> inst.opcode in Bitwise
    ensures Fan19Features(inst) == ["flt_add"] <==> inst.opcode in FloatAddSub
    ensures Fan19Features(inst) == ["flt_mul"] <==> inst.opcode in FloatMul
    ensures Fan19Features(inst) == ["flt_div"] <==> inst.opcode in FloatDiv
  {
    var n := inst.opcode;
    if !(n in IntAddSub || n in IntMul || n in IntDiv || n in Bitwise || n in FloatAddSub || n in FloatMul || n in FloatDiv)
      && n != "call" && (IsLoad(inst) || IsStore(inst))
    {
      Fan19Memory(inst);
    }
  }

  /** A Fan19 call counts only as a special function, and only when the name matches. */
  lemma Fan19Call(inst: Instruction)
    requires inst.opcode == "call" && inst.callee.Some?
    ensures Fan19Features(inst) == (if SpecialCall(inst.callee.value) then ["sp_fun"] else [])
  {
  }

  /**
   * Fan19 memory accesses: address space 1 counts towards `mem_gl` and
   * space 3 towards `mem_loc`, the two swaps of the address-space predicates
   * cancelling out; any other space counts nowhere.
   */
  lemma Fan19Memory(inst: Instruction)
    requires IsLoad(inst) || IsStore(inst)
    ensures Fan19Features(inst) == (if inst.addrSpace == 1 then ["mem_gl"] else if inst.addrSpace == 3 then ["mem_loc"] else [])
  {
  }

  /** The opcode lists whose instructions `Fan19FeatureSet::eval` passes over without a warning. */
  const ControlFlow: set<string> := {"phi", "br", "brcond", "brindirect", "brjt"}
  const Conversion: set<string> := {"uitofp", "fptosi", "sitofp", "bitcast"}
  const OpenCl: set<string> := {"get_global_id", "get_local_id", "get_num_groups", "get_group_id", "get_max_sub_group_size", "max", "pow", "floor"}
  const VectorOps: set<string> := {"extractelement", "insertelement", "shufflevector"}
  const AggregateOps: set<string> := {"extractvalue", "insertvalue"}
  const Ignore: set<string> := {"getelementptr", "alloca", "sext", "icmp", "fcmp", "zext", "trunc", "ret"}

  /** The test `Fan19FeatureSet::eval` makes before its final warning. */
  predicate Fan19Ignored(name: string) {
    InstrCheck(name, ControlFlow) || InstrCheck(name, Conversion) || InstrContains(name, OpenCl) ||
    InstrCheck(name, VectorOps) || InstrCheck(name, AggregateOps) || InstrCheck(name, Ignore)
  }

  /** The opcodes an earlier rule of `Fan19FeatureSet::eval` claims. */
  const Fan19Claimed: set<string> :=
    IntAddSub + IntMul + IntDiv + Bitwise + FloatAddSub + FloatMul + FloatDiv + {"call", "load", "store"}

  /**
   * Letters that `s` lacks and that every name of the OpenCL list needs: a
   * `g` or a `p`, or all of `m`, `a`, `x`, or all of `f`, `l`, `o`.
   */
  predicate LacksOpenClLetters(s: string) {
    'g' !in s && 'p' !in s && !('m' in s && 'a' in s && 'x' in s) && !('f' in s && 'l' in s && 'o' in s)
  }

  /** A name without those letters contains no name of the OpenCL list. */
  lemma NoOpenClName(s: string)
    ensures LacksOpenClLetters(s) ==> !InstrContains(s, OpenCl)
  {
    forall x, k | LacksOpenClLetters(s) && x in OpenCl && 0 <= k <= |s| - |x|
      ensures !OccursAt(s, x, k)
    {
      var w := s[k..k + |x|];
      assert w[0] == s[k] && w[1] == s[k + 1] && w[2] == s[k + 2];
    }
  }

  lemma IntegerOpsLackOpenClLetters(s: string)
    ensures s in IntAddSub + IntMul + IntDiv ==> LacksOpenClLetters(s)
  {
  }

  lemma BitwiseOpsLackOpenClLetters(s: string)
    ensures s in Bitwise ==> LacksOpenClLetters(s)
  {
  }

  lemma FloatAndMemoryOpsLackOpenClLetters(s: string)
    ensures s in FloatAddSub + FloatMul + FloatDiv + {"call", "load", "store"} ==> LacksOpenClLetters(s)
  {
  }

  /** A name's length with its first and last letter, enough to tell the listed opcodes apart. */
  function Ends(s: string): (int, char, char) {
    if s == [] then (0, ' ', ' ') else (|s|, s[0], s[|s| - 1])
  }

  const ClaimedEnds: set<(int, char, char)> := {
    (3, 'a', 'd'), (3, 's', 'b'), (3, 'm', 'l'), (4, 'u', 'v'), (4, 's', 'v'), (7, 's', 'm'),
    (3, 's', 'l'), (4, 'l', 'r'), (4, 'a', 'r'), (2, 'o', 'r'), (3, 'x', 'r'),
    (4, 'f', 'd'), (4, 'f', 'b'), (4, 'f', 'l'), (4, 'f', 'v'), (4, 'c', 'l'), (4, 'l', 'd'), (5, 's', 'e')}

  const ListedEnds: set<(int, char, char)> := {
    (3, 'p', 'i'), (2, 'b', 'r'), (6, 'b', 'd'), (10, 'b', 't'), (4, 'b', 't'),
    (6, 'u', 'p'), (6, 'f', 'i'), (6, 's', 'p'), (7, 'b', 't'),
    (14, 'e', 't'), (13, 'i', 't'), (13, 's', 'r'), (12, 'e', 'e'), (11, 'i', 'e'),
    (13, 'g', 'r'), (6, 'a', 'a'), (4, 's', 't'), (4, 'i', 'p'), (4, 'f', 'p'), (4, 'z', 't'), (5, 't', 'c'), (3, 'r', 't')}

  lemma ArithmeticEnds(s: string)
    ensures s in IntAddSub + IntMul + IntDiv + Bitwise ==> Ends(s) in ClaimedEnds
  {
  }

  lemma FloatAndMemoryEnds(s: string)
    ensures s in FloatAddSub + FloatMul + FloatDiv + {"call", "load", "store"} ==> Ends(s) in ClaimedEnds
  {
  }

  lemma ControlFlowEnds(s: string)
    ensures s in ControlFlow + Conversion ==> Ends(s) in ListedEnds
  {
  }

  lemma OtherListedEnds(s: string)
    ensures s in VectorOps + AggregateOps + Ignore ==> Ends(s) in ListedEnds
  {
  }

  lemma EndsDisjoint(e: (int, char, char))
    ensures e in ClaimedEnds ==> e !in ListedEnds
  {
  }

  /** No opcode on the exact-match ignore lists is claimed by an earlier rule. */
  lemma ListedNotClaimed(s: string)
    ensures s in ControlFlow + Conversion + VectorOps + AggregateOps + Ignore ==> s !in Fan19Claimed
  {
    ArithmeticEnds(s);
    FloatAndMemoryEnds(s);
    ControlFlowEnds(s);
    OtherListedEnds(s);
    EndsDisjoint(Ends(s));
  }

  /** No opcode claimed by an earlier rule contains a name of the OpenCL list. */
  lemma ClaimedNotOpenCl(s: string)
    ensures s in Fan19Claimed ==> !InstrContains(s, OpenCl)
  {
    IntegerOpsLackOpenClLetters(s);
    BitwiseOpsLackOpenClLetters(s);
    FloatAndMemoryOpsLackOpenClLetters(s);
    NoOpenClName(s);
  }

  /** The ignore lists share no opcode with the rules before them. */
  lemma IgnoredNotClaimed(s: string)
    ensures Fan19Ignored(s) ==> s !in Fan19Claimed
  {
    ListedNotClaimed(s);
    ClaimedNotOpenCl(s);
  }

  /**
   * An instruction whose opcode is on one of Fan19's ignore lists is not an
   * indirect call and adds to no counter.
   */
  lemma Fan19IgnoredCountsNothing(inst: Instruction)
    requires Fan19Ignored(inst.opcode)
    ensures !IsIndirectCall(inst) && Fan19Features(inst) == []
  {
    IgnoredNotClaimed(inst.opcode);
    var n := inst.opcode;
    assert n !in IntAddSub && n !in IntMul && n !in IntDiv && n !in Bitwise;
    assert n !in FloatAddSub && n !in FloatMul && n !in FloatDiv;
    assert n != "call" && n != "load" && n != "store";
  }

  /** Fan19 adds to at most one counter, always one its `reset` installs. */
  lemma Fan19Vocabulary(inst: Instruction)
    requires !IsIndirectCall(inst)
    ensures |Fan19Features(inst)| <= 1
    ensures forall k | 0 <= k < |Fan19Features(inst)| :: Fan19Features(inst)[k] in Fan19Counters
  {
  }

  /** Grewe11's arithmetic rules, both ways. */
  lemma Grewe11Arithmetic(inst: Instruction)
    requires !IsIndirectCall(inst)
    ensures Grewe11Features(inst) == ["int"] <==> inst.opcode in IntAddSub + IntMul + IntDiv + Bitwise
    ensures Grewe11Features(inst) == ["float"] <==> inst.opcode in FloatAddSub + FloatMul + FloatDiv
  {
    var n := inst.opcode;
    if !(n in IntAddSub || n in IntMul || n in IntDiv || n in Bitwise || n in FloatAddSub || n in FloatMul || n in FloatDiv)
      && n != "call" && (IsLoad(inst) || IsStore(inst))
    {
      Grewe11Memory(inst);
      assert Grewe11Features(inst)[0] == "mem_acc";
    }
  }

  /**
   * Grewe11 memory accesses: every load and store counts towards `mem_acc`,
   * and towards `mem_loc` too exactly when it is in address space 1.
   */
  lemma Grewe11Memory(inst: Instruction)
    requires IsLoad(inst) || IsStore(inst)
    ensures Grewe11Features(inst) == ["mem_acc"] + (if inst.addrSpace == 1 then ["mem_loc"] else [])
  {
  }

  /** Grewe11 adds to at most two counters, always ones its `reset` installs. */
  lemma Grewe11Vocabulary(inst: Instruction)
    requires !IsIndirectCall(inst)
    ensures |Grewe11Features(inst)| <= 2
    ensures forall k | 0 <= k < |Grewe11Features(inst)| :: Grewe11Features(inst)[k] in Grewe11Counters
  {
  }
}
