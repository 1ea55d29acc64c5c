/**
 * The instruction classifiers of the polynomial feature sets: each maps an
 * instruction to the name of the feature it counts towards, or to "" when
 * it counts towards none.
 */
module CrelClassify {
  import opened Ir
  import opened LlvmHelper

  /** `get_type_prefix`: only the three scalar floating-point types get a prefix. */
  function TypePrefix(ty: TypeKind): (p: string)
    ensures p == "f16." <==> ty == HalfTy
    ensures p == "f32." <==> ty == FloatTy
    ensures p == "f64." <==> ty == DoubleTy
    ensures p == "" <==> ty !in {HalfTy, FloatTy, DoubleTy}
  {
    match ty
    case HalfTy => "f16."
    case FloatTy => "f32."
    case DoubleTy => "f64."
    case _ => ""
  }

  const BinOps: set<string> := {"add", "fadd", "sub", "fsub", "mul", "fmul", "udiv", "sdiv", "fdiv", "urem", "srem", "frem"}
  const IntAddSub: set<string> := {"add", "sub"}
  const IntMul: set<string> := {"mul"}
  const IntDiv: set<string> := {"udiv", "sdiv"}
  const IntRem: set<string> := {"urem", "srem"}
  const FloatAddSub: set<string> := {"fadd", "fsub"}
  const FloatMul: set<string> := {"fmul"}
  const FloatDiv: set<string> := {"fdiv"}
  const FloatRem: set<string> := {"frem"}
  const Special: set<string> := {"call"}
  const Bitwise: set<string> := {"shl", "lshr", "ashr", "and", "or", "xor"}
  const VectorOps: set<string> := {"extractelement", "insertelement", "shufflevector"}
  const AggregateOps: set<string> := {"extractvalue", "insertvalue"}
  const CompSet: set<string> := {"getelementptr", "add", "fadd", "sub", "fsub", "fneg", "mul", "fmul", "udiv", "sdiv", "fdiv", "urem", "srem", "frem"}
  /** As written in the source: the fourth entry starts with a typographic quote. */
  const CompIntrinsics: set<string> := {
    "llvm.fmuladd", "llvm.canonicalize", "llvm.smul.fix.sat", "‘llvm.umul.fix", "llvm.smul.fix",
    "llvm.sqrt", "llvm.powi", "llvm.sin", "llvm.cos", "llvm.pow", "llvm.exp", "llvm.exp2",
    "llvm.log", "llvm.log10", "llvm.log2", "llvm.fma", "llvm.fabs", "llvm.minnum", "llvm.maxnum",
    "llvm.minimum", "llvm.maximum", "llvm.copysign", "llvm.floor", "llvm.ceil", "llvm.trunc",
    "llvm.rint", "llvm.nearbyint", "llvm.round", "llvm.lround", "llvm.llround", "llvm.lrint", "llvm.llrint"}
  const RationalSet: set<string> := {"icmp", "fcmp"}
  const AtomicSet: set<string> := {"cmpxchg", "atomicrmw"}
  const IgnoreSet: set<string> := {"ret", "br", "bitcast", "trunc", "sitofp", "zext", "sext", "alloca", "phi"}

  /** The feature vocabularies the three constructors install. */
  const GpuFeatNames: seq<string> := ["int_addsub", "int_mul", "int_div", "int_rem", "addsub", "mul", "div", "rem", "call",
                                      "bitwise", "aggregate", "vector", "load", "store", "other"]
  const FullFeatNames: seq<string> := ["add", "fadd", "sub", "fsub", "mul", "fmul", "udiv", "sdiv", "fdiv", "urem", "srem", "frem"]
  const Grewe11FeatNames: seq<string> := ["comp", "rational", "mem", "localmem", "coalesced", "atomic"]

  /** `poly_gpu_feature_set::eval_instruction`. */
  function PolyGpu(inst: Instruction): string
  {
    var name := inst.opcode;
    if name in BinOps then
      if name in IntAddSub then "int_addsub"
      else if name in IntMul then "int_mul"
      else if name in IntDiv then "int_div"
      else if name in IntRem then "int_rem"
      else if name in FloatAddSub then TypePrefix(inst.ty) + "addsub"
      else if name in FloatMul then TypePrefix(inst.ty) + "mul"
      else if name in FloatDiv then TypePrefix(inst.ty) + "div"
      else if name in FloatRem then TypePrefix(inst.ty) + "rem"
      else if name in Special then TypePrefix(inst.ty) + "call"
      else "other"
    else if name in Bitwise then "bitwise"
    else if name in AggregateOps then "aggregate"
    else if name in VectorOps then "vector"
    else if IsLoad(inst) then "load"
    else if IsStore(inst) then "store"
    else "other"
  }

  /** The floating-point opcodes `poly_gpu` prefixes with the result type. */
  const FloatOps: set<string> := FloatAddSub + FloatMul + FloatDiv + FloatRem

  /**
   * `poly_gpu` never answers "", and its answer is one of its own fifteen
   * feature names exactly when it is not a prefixed floating-point name: a
   * scalar `fadd` of type float counts as "f32.addsub", which the dataflow over
   * the vocabulary never looks at.
   */
  lemma PolyGpuVocabulary(inst: Instruction)
    ensures PolyGpu(inst) != ""
    ensures PolyGpu(inst) in GpuFeatNames <==> !(inst.opcode in FloatOps && TypePrefix(inst.ty) != "")
    ensures inst.opcode in FloatOps ==> PolyGpu(inst) == TypePrefix(inst.ty) + PolyGpu(inst)[|TypePrefix(inst.ty)|..]
  {
    var p := TypePrefix(inst.ty);
    if inst.opcode in FloatOps && p != "" {
      assert |p| == 4 && p[3] == '.';
      var r := PolyGpu(inst);
      assert r[3] == '.';
      forall k | 0 <= k < |GpuFeatNames| ensures GpuFeatNames[k] != r {
        var g := GpuFeatNames[k];
        if |g| >= 4 {
          assert g[3] != '.';
        }
      }
    } else if inst.opcode in FloatOps {
      assert p == "";
      assert p + "addsub" == GpuFeatNames[4];
      assert p + "mul" == GpuFeatNames[5];
      assert p + "div" == GpuFeatNames[6];
      assert p + "rem" == GpuFeatNames[7];
    }
  }

  /** The `call` branch inside the binary-operator test is dead: calls are "other". */
  lemma PolyGpuCall(inst: Instruction)
    requires inst.opcode == "call"
    ensures PolyGpu(inst) == "other"
  {
  }

  /** `poly_full_feature_set::eval_instruction`. */
  function PolyFull(inst: Instruction): string
  {
    if inst.opcode in BinOps then TypePrefix(inst.ty) + inst.opcode else inst.opcode
  }

  /**
   * `poly_full` answers the bare opcode for every instruction but a binary
   * operator of scalar floating-point type, so its answer is in its vocabulary
   * exactly for the binary operators without a type prefix.
   */
  lemma PolyFullVocabulary(inst: Instruction)
    ensures TypePrefix(inst.ty) == "" || inst.opcode !in BinOps ==> PolyFull(inst) == inst.opcode
    ensures PolyFull(inst) in FullFeatNames <==> inst.opcode in BinOps && TypePrefix(inst.ty) == ""
  {
    var p := TypePrefix(inst.ty);
    var r := PolyFull(inst);
    if inst.opcode in BinOps && p != "" {
      assert |p| == 4 && p[3] == '.';
      assert r[3] == '.';
      forall k | 0 <= k < |FullFeatNames| ensures FullFeatNames[k] != r {
        var g := FullFeatNames[k];
        if |g| >= 4 {
          assert g[3] != '.';
        }
      }
    }
    if inst.opcode !in BinOps {
      forall k | 0 <= k < |FullFeatNames| ensures FullFeatNames[k] != r {
        assert FullFeatNames[k] in BinOps;
      }
    }
  }

  /**
   * `poly_grewe11_feature_set::eval_instruction`. An indirect call (a `call`
   * without a callee) makes the source dereference a null function, so the
   * caller must not pass one.
   */
  function PolyGrewe11(inst: Instruction): string
    requires inst.opcode == "call" ==> IsCall(inst)
  {
    var name := inst.opcode;
    if IsLoad(inst) || IsStore(inst) then
      var space := OpenclAddrSpaceType(inst.addrSpace);
      if space == Constant || space == Global then "mem"
      else if space == Local then "localmem"
      else ""
    else if name in CompSet || name in Bitwise then "comp"
    else if name in RationalSet then "rational"
    else if name in AtomicSet then "atomic"
    else if name in IgnoreSet then ""
    else if name == "call" then
      var intrinsic := inst.callee.value.intrinsic;
      if intrinsic.Some? && intrinsic.value in CompIntrinsics then "comp" else ""
    else name
  }

  /**
   * A memory access counts as "mem" in the constant and global spaces (ids 4
   * and 1), as "localmem" in the local space (id 3) and not at all elsewhere.
   */
  lemma PolyGrewe11Memory(inst: Instruction)
    requires IsLoad(inst) || IsStore(inst)
    requires inst.opcode == "call" ==> IsCall(inst)
    ensures PolyGrewe11(inst) == "mem" <==> inst.addrSpace in {1, 4}
    ensures PolyGrewe11(inst) == "localmem" <==> inst.addrSpace == 3
    ensures PolyGrewe11(inst) == "" <==> inst.addrSpace !in {1, 3, 4}
  {
  }

  /**
   * Outside memory accesses, "" stands for the ignored opcodes and for calls
   * that are not listed intrinsics; an unclassified opcode names its own feature.
   */
  lemma PolyGrewe11Empty(inst: Instruction)
    requires !IsLoad(inst) && !IsStore(inst)
    requires inst.opcode == "call" ==> IsCall(inst)
    ensures PolyGrewe11(inst) == "" <==>
              inst.opcode !in CompSet + Bitwise + RationalSet + AtomicSet &&
              (inst.opcode in IgnoreSet ||
               (inst.opcode == "call" && !(inst.callee.value.intrinsic.Some? && inst.callee.value.intrinsic.value in CompIntrinsics)) ||
               inst.opcode == "")
  {
  }

  /** `llvm.umul.fix` is not in the intrinsic list as written, so it is not "comp". */
  lemma UmulFixNotComp()
    ensures "llvm.umul.fix" !in CompIntrinsics
  {
    assert "‘llvm.umul.fix"[0] != "llvm.umul.fix"[0];
  }
}
