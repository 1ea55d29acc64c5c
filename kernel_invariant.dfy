/**
 * `KernelInvariant`: the values of an OpenCL kernel that stay fixed during a
 * launch (scalar arguments, work sizes and sub-group queries), each recorded
 * under the ordinal of its `InvariantType`.
 */
module KernelInvariants {
  import opened Ir

  /**
   * `InvariantType` ordinals: `a0` to `a9` are 0 to 9, then `gs0`..`gs2`,
   * `ls0`..`ls2`, `nsg`, `sgs` and `none`. An argument at position i is
   * recorded under ordinal i whatever i is, so ordinals are plain numbers.
   */
  const Gs0: nat := 10
  const Ls0: nat := 13
  const Nsg: nat := 16
  const Sgs: nat := 17
  const NoInvariant: nat := 18

  /** The LLVM value an invariant stands for: a kernel argument or a called function. */
  datatype InvariantValue = InvArg(argId: nat) | InvCallee(calleeId: nat)

  /** Step 1 over `args`: each non-pointer argument under its own position. */
  function ArgInvariants(args: seq<Argument>): map<nat, InvariantValue> {
    if args == [] then map[]
    else
      var i := |args| - 1;
      var m := ArgInvariants(args[..i]);
      if args[i].isPointer then m else m[i := InvArg(args[i].id)]
  }

  /** A work-size query `get_*_size(dim)`: dimensions 0 to 2 given as a constant of at most 32 bits. */
  function SizeStep(m: map<nat, InvariantValue>, dim: Operand, base: nat, c: InvariantValue): map<nat, InvariantValue> {
    if dim.ConstInt? && dim.bitWidth <= 32 && 0 <= dim.value <= 2 then m[base + dim.value := c] else m
  }

  /** Step 2 for one instruction: what a direct call with a demangled name records. */
  function CallStep(m: map<nat, InvariantValue>, x: Instruction): map<nat, InvariantValue> {
    if x.opcode != "call" || x.callee.None? || x.callee.value.demangled.None? then m
    else
      var name := x.callee.value.demangled.value;
      var c := InvCallee(x.callee.value.id);
      if |x.operands| == 1 then
        var m1 := if StartsWith(name, "get_global_size") then SizeStep(m, x.operands[0], Gs0, c) else m;
        if StartsWith(name, "get_local_size") then SizeStep(m1, x.operands[0], Ls0, c) else m1
      else if |x.operands| == 0 then
        var m1 := if StartsWith(name, "get_num_sub_groups") then m[Nsg := c] else m;
        if StartsWith(name, "get_sub_group_size") then m1[Sgs := c] else m1
      else m
  }

  /** Step 2 over `instrs`, in order: a later call of the same kind overwrites an earlier one. */
  function CallInvariants(m: map<nat, InvariantValue>, instrs: seq<Instruction>): map<nat, InvariantValue> {
    if instrs == [] then m else CallStep(CallInvariants(m, instrs[..|instrs| - 1]), instrs[|instrs| - 1])
  }

  lemma CallInvariantsSnoc(m: map<nat, InvariantValue>, a: seq<Instruction>, x: Instruction)
    ensures CallInvariants(m, a + [x]) == CallStep(CallInvariants(m, a), x)
  {
    assert (a + [x])[..|a|] == a;
  }

  /** Walking two runs of instructions one after the other is walking their concatenation. */
  lemma {:induction false} CallInvariantsAppend(m: map<nat, InvariantValue>, a: seq<Instruction>, c: seq<Instruction>)
    ensures CallInvariants(m, a + c) == CallInvariants(CallInvariants(m, a), c)
  {
    if c == [] {
      assert a + c == a;
    } else {
      var init := c[..|c| - 1];
      CallInvariantsAppend(m, a, init);
      assert (a + c)[..|a + c| - 1] == a + init;
    }
  }

  /** What the constructor records for `f`. */
  function Collect(f: Function): map<nat, InvariantValue> {
    CallInvariants(ArgInvariants(f.args), Instrs(f.blocks))
  }

  /** The ordinals the constructor can use: argument positions and the named ordinals. */
  function OrdinalBound(f: Function): nat {
    if |f.args| > NoInvariant then |f.args| else NoInvariant
  }

  class KernelInvariant {
    const fun: Function
    var invariants: map<nat, InvariantValue>

    ghost predicate Valid()
      reads this
    {
      forall k | k in invariants :: k < OrdinalBound(fun)
    }

    /** The constructor: arguments first, then every call of every block. */
    constructor (f: Function)
      requires NoIndirectCalls(f)
      ensures fun == f && invariants == Collect(f)
      ensures Valid()
    {
      fun := f;
      invariants := map[];
      new;
      RecordArgs();
      ghost var start := invariants;
      for b := 0 to |f.blocks|
        invariant invariants == CallInvariants(start, Instrs(f.blocks[..b]))
      {
        assert f.blocks[..b + 1][..b] == f.blocks[..b];
        CallInvariantsAppend(start, Instrs(f.blocks[..b]), f.blocks[b].instrs);
        RecordBlock(f.blocks[b].instrs);
      }
      assert f.blocks[..|f.blocks|] == f.blocks;
      CollectBounded(f);
    }

    /** Step 1: each scalar argument is recorded under its position. */
    method RecordArgs()
      requires invariants == map[]
      modifies this
      ensures invariants == ArgInvariants(fun.args)
    {
      for i := 0 to |fun.args|
        invariant invariants == ArgInvariants(fun.args[..i])
      {
        assert fun.args[..i + 1][..i] == fun.args[..i];
        if !fun.args[i].isPointer {
          invariants := invariants[i := InvArg(fun.args[i].id)];
        }
      }
      assert fun.args[..|fun.args|] == fun.args;
    }

    /** Step 2 for one block: its instructions in order. */
    method RecordBlock(instrs: seq<Instruction>)
      requires forall k | 0 <= k < |instrs| :: !IsIndirectCall(instrs[k])
      modifies this
      ensures invariants == CallInvariants(old(invariants), instrs)
    {
      ghost var start := invariants;
      for k := 0 to |instrs|
        invariant invariants == CallInvariants(start, instrs[..k])
      {
        assert instrs[..k + 1] == instrs[..k] + [instrs[k]];
        CallInvariantsSnoc(start, instrs[..k], instrs[k]);
        RecordCall(instrs[k]);
      }
      assert instrs[..|instrs|] == instrs;
    }

    /** One instruction of step 2, branch for branch. */
    method RecordCall(x: Instruction)
      requires !IsIndirectCall(x)
      modifies this
      ensures invariants == CallStep(old(invariants), x)
    {
      if x.opcode == "call" {
        var callee := x.callee.value;
        if callee.demangled.None? {
          return;
        }
        var name := callee.demangled.value;
        var c := InvCallee(callee.id);
        if |x.operands| == 1 {
          var dim := x.operands[0];
          if StartsWith(name, "get_global_size") {
            if dim.ConstInt? && dim.bitWidth <= 32 {
              if dim.value == 0 { invariants := invariants[Gs0 := c]; }
              else if dim.value == 1 { invariants := invariants[Gs0 + 1 := c]; }
              else if dim.value == 2 { invariants := invariants[Gs0 + 2 := c]; }
            }
          }
          if StartsWith(name, "get_local_size") {
            if dim.ConstInt? && dim.bitWidth <= 32 {
              if dim.value == 0 { invariants := invariants[Ls0 := c]; }
              else if dim.value == 1 { invariants := invariants[Ls0 + 1 := c]; }
              else if dim.value == 2 { invariants := invariants[Ls0 + 2 := c]; }
            }
          }
        }
        if |x.operands| == 0 {
          if StartsWith(name, "get_num_sub_groups") {
            invariants := invariants[Nsg := c];
          }
          if StartsWith(name, "get_sub_group_size") {
            invariants := invariants[Sgs := c];
          }
        }
      }
    }

    /**
     * `isInvariant`: walking the ordered map from the smallest ordinal, the
     * first invariant that is the queried value, or `none`. The source also
     * compares against each use of the invariant, but a use converts to the
     * used value itself, so that test repeats the first one.
     */
    method IsInvariant(v: InvariantValue) returns (r: nat)
      requires Valid()
      ensures (exists k | k in invariants :: invariants[k] == v) ==>
        r in invariants && invariants[r] == v && forall k | k in invariants && k < r :: invariants[k] != v
      ensures (forall k | k in invariants :: invariants[k] != v) ==> r == NoInvariant
    {
      var bound := OrdinalBound(fun);
      for k := 0 to bound
        invariant forall j | j in invariants && j < k :: invariants[j] != v
      {
        if k in invariants && invariants[k] == v {
          return k;
        }
      }
      return NoInvariant;
    }
  }

  /** Step 1 alone: position i holds argument i exactly when it is not a pointer. */
  lemma {:induction false} ArgInvariantsAt(args: seq<Argument>, i: nat)
    requires i < |args|
    ensures args[i].isPointer ==> i !in ArgInvariants(args)
    ensures !args[i].isPointer ==> i in ArgInvariants(args) && ArgInvariants(args)[i] == InvArg(args[i].id)
  {
    var last := |args| - 1;
    ArgInvariantsKeys(args[..last]);
    if i < last {
      ArgInvariantsAt(args[..last], i);
      assert args[..last][i] == args[i];
    }
  }

  /** Step 1 only uses argument positions. */
  lemma {:induction false} ArgInvariantsKeys(args: seq<Argument>)
    ensures forall k | k in ArgInvariants(args) :: k < |args|
  {
    if args != [] {
      ArgInvariantsKeys(args[..|args| - 1]);
    }
  }

  /** A call only writes the ordinals `gs0` to `sgs`. */
  lemma CallStepKeeps(m: map<nat, InvariantValue>, x: Instruction, k: nat)
    requires k < Gs0 || k > Sgs
    ensures k in CallStep(m, x) <==> k in m
    ensures k in m ==> CallStep(m, x)[k] == m[k]
  {
  }

  lemma {:induction false} CallInvariantsKeep(m: map<nat, InvariantValue>, instrs: seq<Instruction>, k: nat)
    requires k < Gs0 || k > Sgs
    ensures k in CallInvariants(m, instrs) <==> k in m
    ensures k in m ==> CallInvariants(m, instrs)[k] == m[k]
  {
    if instrs != [] {
      CallInvariantsKeep(m, instrs[..|instrs| - 1], k);
      CallStepKeeps(CallInvariants(m, instrs[..|instrs| - 1]), instrs[|instrs| - 1], k);
    }
  }

  lemma {:induction false} CallInvariantsBounded(m: map<nat, InvariantValue>, instrs: seq<Instruction>, bound: nat)
    requires Sgs < bound && forall k | k in m :: k < bound
    ensures forall k | k in CallInvariants(m, instrs) :: k < bound
  {
    if instrs != [] {
      CallInvariantsBounded(m, instrs[..|instrs| - 1], bound);
    }
  }

  lemma CollectBounded(f: Function)
    ensures forall k | k in Collect(f) :: k < OrdinalBound(f)
  {
    ArgInvariantsKeys(f.args);
    CallInvariantsBounded(ArgInvariants(f.args), Instrs(f.blocks), OrdinalBound(f));
  }

  /**
   * The first ten argument positions: a scalar argument is recorded under its
   * own position and a pointer argument leaves its position empty, later
   * positions not being compacted.
   */
  lemma CollectArgs(f: Function, i: nat)
    requires i < |f.args| && i < Gs0
    ensures f.args[i].isPointer ==> i !in Collect(f)
    ensures !f.args[i].isPointer ==> i in Collect(f) && Collect(f)[i] == InvArg(f.args[i].id)
  {
    ArgInvariantsAt(f.args, i);
    CallInvariantsKeep(ArgInvariants(f.args), Instrs(f.blocks), i);
  }

  /**
   * A work-size query whose argument is a constant dimension 0 to 2 of at
   * most 32 bits records the called function under gs or ls plus the
   * dimension; a call with another name records nothing.
   */
  lemma SizeQuery(m: map<nat, InvariantValue>, x: Instruction, d: int)
    requires x.opcode == "call" && x.callee.Some? && x.callee.value.demangled.Some?
    requires |x.operands| == 1 && x.operands[0].ConstInt? && x.operands[0].bitWidth <= 32
    requires x.operands[0].value == d && 0 <= d <= 2
    ensures StartsWith(x.callee.value.demangled.value, "get_global_size") ==>
      CallStep(m, x)[Gs0 + d] == InvCallee(x.callee.value.id)
    ensures StartsWith(x.callee.value.demangled.value, "get_local_size") ==>
      CallStep(m, x)[Ls0 + d] == InvCallee(x.callee.value.id)
    ensures CallStep(m, x).Keys <= m.Keys + {Gs0 + d, Ls0 + d}
    ensures (!StartsWith(x.callee.value.demangled.value, "get_global_size") &&
             !StartsWith(x.callee.value.demangled.value, "get_local_size")) ==> CallStep(m, x) == m
  {
  }

  /**
   * A one-argument call whose argument is not a constant, is wider than 32
   * bits, or is a dimension outside 0 to 2 records nothing.
   */
  lemma SizeQueryIgnored(m: map<nat, InvariantValue>, x: Instruction)
    requires |x.operands| == 1
    requires !x.operands[0].ConstInt? || x.operands[0].bitWidth > 32 || !(0 <= x.operands[0].value <= 2)
    ensures CallStep(m, x) == m
  {
  }

  /** An instruction that is not a call, or calls a function whose name does not demangle, records nothing. */
  lemma NotDemangledIgnored(m: map<nat, InvariantValue>, x: Instruction)
    requires x.opcode != "call" || x.callee.None? || x.callee.value.demangled.None?
    ensures CallStep(m, x) == m
  {
  }

  /**
   * An argument-less call of `get_num_sub_groups` or `get_sub_group_size`
   * records the called function under nsg or sgs; one with another name
   * records nothing.
   */
  lemma SubGroupQuery(m: map<nat, InvariantValue>, x: Instruction)
    requires x.opcode == "call" && x.callee.Some? && x.callee.value.demangled.Some? && |x.operands| == 0
    ensures StartsWith(x.callee.value.demangled.value, "get_num_sub_groups") ==>
      CallStep(m, x)[Nsg] == InvCallee(x.callee.value.id)
    ensures StartsWith(x.callee.value.demangled.value, "get_sub_group_size") ==>
      CallStep(m, x)[Sgs] == InvCallee(x.callee.value.id)
    ensures CallStep(m, x).Keys <= m.Keys + {Nsg, Sgs}
    ensures (!StartsWith(x.callee.value.demangled.value, "get_num_sub_groups") &&
             !StartsWith(x.callee.value.demangled.value, "get_sub_group_size")) ==> CallStep(m, x) == m
  {
  }

  /** A call with two or more arguments records nothing. */
  lemma OtherCallIgnored(m: map<nat, InvariantValue>, x: Instruction)
    requires |x.operands| >= 2
    ensures CallStep(m, x) == m
  {
  }
}
