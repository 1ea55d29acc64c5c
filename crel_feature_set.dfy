/**
 * `crel_feature_set`: the per-kernel feature polynomials of one analysis,
 * keyed by the kernel function's global identifier, together with the
 * feature vocabulary and the instruction classifier of one of the three
 * polynomial feature sets.
 */
module CrelFeatureSet {
  import opened Rationals
  import opened Mpoly
  import opened Ir
  import opened CrelClassify
  import opened CrelKernel

  /** The three polynomial feature sets. */
  datatype Variant = PolyGpuSet | PolyFullSet | PolyGrewe11Set

  /** The vocabulary each constructor installs in `feat_names`. */
  function Vocabulary(variant: Variant): (names: seq<string>)
    ensures |names| == match variant case PolyGpuSet => 15 case PolyFullSet => 12 case PolyGrewe11Set => 6
    ensures forall i | 0 <= i < |names| :: names[i] != ""
  {
    match variant
    case PolyGpuSet => GpuFeatNames
    case PolyFullSet => FullFeatNames
    case PolyGrewe11Set => Grewe11FeatNames
  }

  /** No vocabulary lists a name twice. */
  lemma VocabularyDistinct(variant: Variant)
    ensures forall i, j | 0 <= i < j < |Vocabulary(variant)| :: Vocabulary(variant)[i] != Vocabulary(variant)[j]
  {
  }

  /** The grewe11 classifier dereferences the callee of every call. */
  predicate Classifiable(variant: Variant, inst: Instruction) {
    variant == PolyGrewe11Set && inst.opcode == "call" ==> IsCall(inst)
  }

  /** `eval_instruction` of the chosen feature set. */
  function EvalInstruction(variant: Variant, inst: Instruction): string
    requires Classifiable(variant, inst)
  {
    match variant
    case PolyGpuSet => PolyGpu(inst)
    case PolyFullSet => PolyFull(inst)
    case PolyGrewe11Set => PolyGrewe11(inst)
  }

  class CrelFeatureSet {
    const variant: Variant
    const featNames: seq<string>
    var kernels: map<string, CrelKernel>

    /**
     * The vocabulary is the variant's; every stored kernel is valid, and no
     * two names share a kernel object (the map holds kernels by value).
     */
    ghost predicate Valid()
      reads this, kernels.Values
    {
      featNames == Vocabulary(variant) &&
      (forall k | k in kernels :: kernels[k].Valid()) &&
      (forall k, k' | k in kernels && k' in kernels && k != k' :: kernels[k] != kernels[k'])
    }

    /** `kernels[name]` read as a state: a missing entry is the default kernel. */
    ghost function Entry(name: string): KernelView
      reads this, kernels.Values
    {
      if name in kernels then kernels[name].View() else DefaultView()
    }

    /** The kernel object stored under `name`, if any: what an update of that kernel may change. */
    function Stored(name: string): set<object>
      reads this
    {
      if name in kernels then {kernels[name]} else {}
    }

    /** The constructors of the three feature sets: the vocabulary, and no kernel yet. */
    constructor (variant: Variant)
      ensures Valid() && this.variant == variant && featNames == Vocabulary(variant) && kernels == map[]
    {
      this.variant := variant;
      featNames := Vocabulary(variant);
      kernels := map[];
    }

    /** `kernels[name]`: the stored kernel, created by default when missing. */
    method Lookup(name: string) returns (k: CrelKernel)
      requires Valid()
      modifies this
      ensures Valid() && kernels == old(kernels)[name := k]
      ensures name in old(kernels) ==> k == old(kernels[name]) && kernels == old(kernels)
      ensures name !in old(kernels) ==> fresh(k) && k.View() == DefaultView()
    {
      if name in kernels {
        k := kernels[name];
      } else {
        k := new CrelKernel.Default();
        kernels := kernels[name := k];
      }
    }

    /** `kernels[name] = kernel`: the kernel is stored under `name`, in place of any earlier entry. */
    method Store(name: string, k: CrelKernel)
      requires Valid() && k.Valid()
      requires forall n' | n' in kernels && n' != name :: kernels[n'] != k
      modifies this
      ensures Valid() && kernels == old(kernels)[name := k]
    {
      kernels := kernels[name := k];
    }

    /** `add(func, bb, feature, contribution)`. */
    method Add(name: string, bb: nat, feature: string, contribution: nat)
      requires Valid() && contribution < 0x1_0000_0000
      modifies this, Stored(name)
      ensures Valid() && name in kernels
      ensures kernels == old(kernels)[name := kernels[name]]
      ensures name in old(kernels) ==> kernels == old(kernels)
      ensures name !in old(kernels) ==> fresh(kernels[name])
      ensures kernels[name].View() ==
              AddToView(old(Entry(name)), bb, feature, Const(|kernels[name].runtimeVars|, IntQ(contribution)))
    {
      var k := Lookup(name);
      k.Add(bb, feature, contribution);
    }

    /** `add(func, bb, feature, poly)`. */
    method AddPoly(name: string, bb: nat, feature: string, p: Poly)
      requires Valid() && WellFormed(p, |Entry(name).runtimeVars|)
      modifies this, Stored(name)
      ensures Valid() && name in kernels
      ensures kernels == old(kernels)[name := kernels[name]]
      ensures name in old(kernels) ==> kernels == old(kernels)
      ensures name !in old(kernels) ==> fresh(kernels[name])
      ensures kernels[name].View() == AddToView(old(Entry(name)), bb, feature, p)
    {
      var k := Lookup(name);
      k.AddPoly(bb, feature, p);
    }

    /**
     * `eval(inst, contribution)`: `name` is the identifier of the
     * instruction's function and `bb` its block. Only a non-empty feature
     * name adds anything; `feature` is the classifier's answer.
     */
    method Eval(inst: Instruction, name: string, bb: nat, contribution: nat) returns (feature: string)
      requires Valid() && Classifiable(variant, inst) && contribution < 0x1_0000_0000
      modifies this, Stored(name)
      ensures Valid() && feature == EvalInstruction(variant, inst)
      ensures feature == "" ==> kernels == old(kernels) && unchanged(Stored(name))
      ensures feature != "" ==> name in kernels && kernels == old(kernels)[name := kernels[name]]
      ensures feature != "" && name in old(kernels) ==> kernels == old(kernels)
      ensures feature != "" && name !in old(kernels) ==> fresh(kernels[name])
      ensures feature != "" ==>
                kernels[name].View() ==
                AddToView(old(Entry(name)), bb, feature, Const(|kernels[name].runtimeVars|, IntQ(contribution)))
    {
      feature := EvalInstruction(variant, inst);
      if feature != "" {
        Add(name, bb, feature, contribution);
      }
    }
  }
}
