# celerity-comp: a verified model of the kernel cost estimator

celerity-comp statically estimates the cost of an OpenCL/SYCL GPU kernel from
its LLVM IR. This project models its core in Dafny and proves properties of
the model.

**Cost-relation engine.** The rational multivariate polynomial `crel_mpoly`
(`mpoly.dfy`, over the exact rationals of `rationals.dfy`).
- The value and SCEV evaluators that turn IR expressions into polynomials
  (`evaluator.dfy`).
- The runtime-variable discovery and per-block accumulation of a
  `crel_kernel` (`crel_kernel.dfy`).
- The kernel map of a `crel_feature_set` (`crel_feature_set.dfy`).
- The whole of `poly_crel_pass::eval_function` (`crel_feature_pass.dfy`):
  - per-block feature polynomials;
  - loop multipliers;
  - scaling of every block by its enclosing loops;
  - the backward max-join data-flow to a fixpoint (`dataflow.dfy`).

**Classification tables.** The `poly_gpu`, `poly_full` and `poly_grewe11`
classifiers (`crel_classify.dfy`), the OpenCL address-space mapping and
kernel test (`llvm_helper.dfy`), and the legacy `gpu`/`full`/`grewe11`
feature sets with `checkAddrSpace` (`legacy_feature_set.dfy`).

**Counter feature sets.** `FeatureSet` with `Fan19`, `Grewe11` and `Full`
(`counter_feature_set.dfy`). The coalesced-access counter
`getCoalescedMemAccess` (`mem_access.dfy`).

**Loop heuristics.** The Kofler et al. per-block multipliers: trip-count
based, final-induction-value based, and the legacy ×100 per loop
(`loop_multipliers.dfy`). The passes that drive the counter sets with them
(`feature_passes.dfy`).

**Kernel invariants.** `KernelInvariant`: scalar arguments and work-size
queries under fixed ordinals (`kernel_invariant.dfy`). `ir.dfy` holds the
IR datatypes: instructions, blocks, values, SCEV expressions, loops,
functions.

The model takes the source's form:
- Objects whose fields the source updates in place are classes whose methods
  state their whole new state: `crel_mpoly`, `crel_kernel`,
  `crel_feature_set`, `KernelInvariant`, `FeatureSet` and the legacy
  counter set.
- Loops are `while`/`for` loops with their invariants.
- Pure if-chains are functions.

Each method's contract either ties its result or its new state to a
specification function of its inputs and old state, or states the source's
promise outright; the properties the source promises are then proved about
those functions as lemmas.

LLVM is reduced to inputs:
- LoopInfo's loop forest, with each loop's blocks, small constant trip
  count, backedge-taken SCEV and final induction value;
- the instruction and value graph;
- the outcome of FLINT's exact polynomial division, as an oracle whose
  answers are sound (`SoundOracle`).

Undefined behaviour or a crash in the source is a `None` result of the
evaluators, or a precondition. Examples: division by a zero constant, a shift
amount outside 0..31, reading a constant wider than 64 bits.

Where the system's own description and its code differ, the model follows
the code:
- The `crel_kernel` constructor registers every argument as a runtime
  variable, pointers included.
- It adds one variable per geometry call site, with no de-duplication.
- A could-not-compute SCEV gives the constant 1; there is no
  maximum-backedge-count fallback.
- A loop without a small constant trip count is multiplied by the evaluated
  backedge-taken count, not by that count plus one.
- `poly_gpu` names floating-point features with a type prefix
  (`f32.addsub`). Those names are not in its own 15-entry vocabulary, so
  `CrelClassify.PolyGpuVocabulary` states exactly when the name is in it.
- `isGlobalMemoryAccess` holds for address space 3 (Local) and
  `isLocalMemoryAccess` for address space 1 (Global). As a result, Fan19
  counts space-1 accesses as `mem_gl` and space-3 accesses as `mem_loc`, and
  Grewe11 counts space-1 accesses as `mem_loc`.
- The intrinsic sets list `‘llvm.umul.fix` with a stray opening quote, so
  `llvm.umul.fix` is not a computational intrinsic for `poly_grewe11`
  (`CrelClassify.UmulFixNotComp`).
- `Grewe11` `mem_coal` is the integer quotient of the two unsigned counts.

## Model

| member | source | states |
|---|---|---|
| Rationals.Denominator | src/crel_mpoly.cpp:264-270 | the denominator FLINT keeps: the least positive integer that turns the rational into an integer |
| Rationals.Numerator | src/crel_mpoly.cpp:256-262 | the numerator is the rational times its least denominator |
| Rationals.IntegerParts | src/crel_mpoly.cpp:256-270 | an integer has denominator 1 and itself as numerator |
| Mpoly.Const | src/crel_mpoly.cpp:95-108 | a constant polynomial is constant, has value c at the zero monomial and no other term |
| Mpoly.ConstOfValue | src/crel_mpoly.cpp:252-262 | a constant polynomial is determined by its constant value |
| Mpoly.ConstZero | src/crel_mpoly.cpp:252-262 | a constant polynomial has value 0 exactly when it has no terms |
| Mpoly.WithVarCoeff | src/crel_mpoly.cpp:184-205 | the coefficient of x_i becomes c and every other coefficient is unchanged |
| Mpoly.Var | src/crel_feature_pass.cpp:276-278 | x_i is the non-constant polynomial whose only term is 1·x_i |
| Mpoly.Plus | src/crel_mpoly.cpp:115-133 | the sum is coefficient-wise and keeps no zero coefficient |
| Mpoly.Minus | src/crel_mpoly.cpp:135-137 | the difference is coefficient-wise and keeps no zero coefficient |
| Mpoly.Scale | src/crel_mpoly.cpp:145-147 | multiplying by a scalar multiplies every coefficient |
| Mpoly.DivScalar | src/crel_mpoly.cpp:149-152 | dividing by a non-zero scalar divides every coefficient and keeps every monomial |
| Mpoly.Mul | src/crel_mpoly.cpp:140-143 | the product of two polynomials over n variables is a polynomial over n variables |
| Mpoly.MulConstants | src/crel_mpoly.cpp:140-143 | the product of two constants is the constant product |
| Mpoly.ScaleConst | src/crel_mpoly.cpp:145-147 | scaling a constant gives the constant product |
| Mpoly.TimesConst | src/crel_mpoly.cpp:140-147 | multiplying by a constant polynomial is scaling by that constant |
| Mpoly.TimesZero | src/crel_mpoly.cpp:140-143 | the zero polynomial times anything is zero |
| Mpoly.DividePoly | src/crel_mpoly.cpp:154-182 | a constant divisor divides each coefficient; a non-constant divisor that divides exactly gives q with q·p = s; otherwise s unchanged |
| Mpoly.MaxJoinOf | src/crel_mpoly.cpp:207-250 | the monomials of the join are those of either operand |
| Mpoly.MaxJoinCoefficients | src/crel_mpoly.cpp:207-250 | shared monomials get the larger coefficient, one-sided monomials keep theirs (negative ones included) |
| Mpoly.MaxJoinLeastUpperBound | src/crel_mpoly.cpp:207-250 | the join is above both operands and below every common upper bound |
| Mpoly.MaxJoinIdempotent | src/crel_mpoly.cpp:207-250 | p.maxjoin(p) leaves p unchanged |
| Mpoly.MaxJoinZero | src/crel_mpoly.cpp:207-250 | joining with the zero polynomial changes nothing |
| Mpoly.MaxJoinCommutative | src/crel_mpoly.cpp:207-250 | the join does not depend on operand order |
| Mpoly.MaxJoinAssociative | src/crel_mpoly.cpp:207-250 | the join is associative |
| Mpoly.MaxJoinInsert | src/crel_mpoly.cpp:216-248 | one more term of q overwrites a smaller coefficient or is appended |
| Mpoly.MaxJoinStep | src/crel_mpoly.cpp:216-248 | one iteration of the outer loop handles exactly one term of q |
| Mpoly.MaxJoinAbsorbs | src/crel_mpoly.cpp:207-250 | joining a polynomial below self changes nothing |
| Mpoly.PlusMinus | src/crel_mpoly.cpp:131-137 | add(p) then sub(p) restores the polynomial |
| Mpoly.ScaleDivScalar | src/crel_mpoly.cpp:145-152 | multiply(c) then divideby(c) restores the polynomial for c ≠ 0 |
| Mpoly.PlusCommutative | src/crel_mpoly.cpp:131-133 | addition is commutative |
| Mpoly.PlusAssociative | src/crel_mpoly.cpp:131-133 | addition is associative |
| Mpoly.PlusZero | src/crel_mpoly.cpp:131-133 | the zero polynomial is neutral for addition |
| Mpoly.IsEqualCoefficients | src/crel_mpoly.cpp:87-89 | isEqual holds exactly when every coefficient agrees |
| Mpoly.CrelMpoly.constructor | src/crel_mpoly.cpp:36-47 | a new polynomial over numVars variables is zero |
| Mpoly.CrelMpoly.Set | src/crel_mpoly.cpp:78-80 | self becomes a copy of the argument |
| Mpoly.CrelMpoly.SetConstantUnsigned | src/crel_mpoly.cpp:95-100 | self becomes the constant c; isConstant, nominator c, denominator 1 |
| Mpoly.CrelMpoly.SetConstant | src/crel_mpoly.cpp:102-104 | self becomes the signed constant c; isConstant, nominator c, denominator 1 |
| Mpoly.CrelMpoly.SetConstant64bit | src/crel_mpoly.cpp:106-108 | self becomes the 64-bit constant c; denominator 1, nominator c when FLINT keeps c as a small integer |
| Mpoly.CrelMpoly.AddUnsigned | src/crel_mpoly.cpp:115-121 | adds the unsigned constant |
| Mpoly.CrelMpoly.AddSigned | src/crel_mpoly.cpp:123-129 | adds the signed constant |
| Mpoly.CrelMpoly.Add | src/crel_mpoly.cpp:131-133 | self becomes the sum |
| Mpoly.CrelMpoly.Sub | src/crel_mpoly.cpp:135-137 | self becomes the difference |
| Mpoly.CrelMpoly.Multiply | src/crel_mpoly.cpp:140-143 | self becomes the product, term by term |
| Mpoly.CrelMpoly.MultiplyConstant | src/crel_mpoly.cpp:145-147 | every coefficient is multiplied by c |
| Mpoly.CrelMpoly.DivideByConstant | src/crel_mpoly.cpp:149-152 | every coefficient is divided by c ≠ 0 |
| Mpoly.CrelMpoly.DivideBy | src/crel_mpoly.cpp:154-182 | self becomes DividePoly of self by the argument |
| Mpoly.CrelMpoly.SetVarCoeff | src/crel_mpoly.cpp:184-186 | the coefficient of x_i becomes the integer n, others unchanged |
| Mpoly.CrelMpoly.SetVarCoeffRational | src/crel_mpoly.cpp:188-205 | the coefficient of x_i becomes n/(d mod 2^64), FLINT's unsigned denominator (n/d for positive d), others unchanged |
| Mpoly.CrelMpoly.MaxJoin | src/crel_mpoly.cpp:207-250 | the nested loop leaves self equal to the per-monomial maximum join |
| Mpoly.CrelMpoly.IsConstant | src/crel_mpoly.cpp:252-254 | true exactly for polynomials with no non-constant term |
| Mpoly.CrelMpoly.GetConstantNominator | src/crel_mpoly.cpp:256-262 | the numerator of the constant in lowest terms |
| Mpoly.CrelMpoly.GetConstantDenominator | src/crel_mpoly.cpp:264-270 | the least positive denominator of the constant |
| LlvmHelper.AddrSpaceRoundTrip | include/crel_llvm_helper.h:22-40 | ids 0 to 5 map to Generic, Global, Region, Local, Constant, Private and back; every other id maps to Generic |
| LlvmHelper.LocalAndGlobalIds | include/crel_llvm_helper.h:22-40 | Local exactly for id 3, Global exactly for id 1 |
| LlvmHelper.IsKernelFunction | include/crel_llvm_helper.h:45-53 | true exactly for the AMDGPU_KERNEL, PTX_Kernel and SPIR_KERNEL calling conventions |
| CrelClassify.TypePrefix | src/crel_feature_set.cpp:54-66 | "f16.", "f32.", "f64." for half, float, double and "" for every other type |
| CrelClassify.PolyGpuVocabulary | src/crel_feature_set.cpp:114-172 | poly_gpu never returns ""; its name is in its vocabulary exactly unless it is a float op with a type prefix, which is then the prefix of the name |
| CrelClassify.PolyGpuCall | src/crel_feature_set.cpp:146-172 | a call is classified "other" |
| CrelClassify.PolyFullVocabulary | src/crel_feature_set.cpp:178-187 | non-float-typed or non-binary instructions get their opcode; the name is in the vocabulary exactly for unprefixed binary ops |
| CrelClassify.PolyGrewe11Memory | src/crel_feature_set.cpp:201-214 | loads/stores: "mem" for Global or Constant space, "localmem" for Local, "" otherwise |
| CrelClassify.PolyGrewe11Empty | src/crel_feature_set.cpp:216-270 | a non-memory instruction gives "" exactly when it is in IGNORE_SET, or a call that is not a listed intrinsic |
| CrelClassify.UmulFixNotComp | src/crel_feature_set.cpp:88-94 | "llvm.umul.fix" is not in the computational-intrinsics set as written |
| CrelKernel.ArgVars | src/crel_kernel.cpp:20-26 | one variable per argument, in order, named k<i> with value index i |
| CrelKernel.DiscoverVarsArgsFirst | src/crel_kernel.cpp:10-80 | every argument, pointer or not, becomes variable i = ("k"+i, argument, i, true), and only those are kernel arguments |
| CrelKernel.GeometryVarsNotArgs | src/crel_kernel.cpp:29-73 | no geometry variable is a kernel argument |
| CrelKernel.InstrGeometryVarsNotArgs | src/crel_kernel.cpp:29-73 | every geometry variable of a block is named by its prefix and dimension, holds the call, and is not an argument |
| CrelKernel.InstrGeometryVarsCount | src/crel_kernel.cpp:29-73 | every further geometry call site appends exactly one variable (no de-duplication) |
| CrelKernel.GeometryPrefixPriority | src/crel_kernel.cpp:53-68 | the first match among get_global_id, get_local_id, get_global_size, get_local_size decides the prefix g, l, s, z |
| CrelKernel.AddFeatureEffect | src/crel_kernel.cpp:82-94 | adding to (bb, f) changes that entry by p and no other entry |
| CrelKernel.AddFeatureOver | src/crel_kernel.cpp:82-94 | adding keeps every polynomial over the kernel's variables |
| CrelKernel.CrelKernel.Default | src/crel_kernel.cpp:10-80 | the default kernel is empty with instructionNum 0 |
| CrelKernel.CrelKernel.constructor | src/crel_kernel.cpp:10-80 | the runtime variables are the discovered ones, instructionNum 0, all maps empty |
| CrelKernel.CrelKernel.Add | src/crel_kernel.cpp:82-87 | the constant is added to bbFeatures[bb][f], instructionNum grows by exactly 1, nothing else changes |
| CrelKernel.CrelKernel.AddPoly | src/crel_kernel.cpp:89-94 | the polynomial is added to bbFeatures[bb][f], instructionNum grows by exactly 1, nothing else changes |
| CrelKernel.CrelKernel.GetVarNames | src/crel_kernel.cpp:96-104 | the names of the runtime variables, in order |
| CrelFeatureSet.Vocabulary | src/crel_feature_set.cpp:114-117 | 15, 12 and 6 non-empty names for poly_gpu, poly_full, poly_grewe11 |
| CrelFeatureSet.VocabularyDistinct | src/crel_feature_set.cpp:178-194 | each vocabulary lists no name twice |
| CrelFeatureSet.CrelFeatureSet.constructor | src/crel_feature_set.cpp:114-117 | a new set holds the variant's vocabulary and no kernel |
| CrelFeatureSet.CrelFeatureSet.Lookup | include/crel_feature_set.h:32-39 | kernels[name] returns the stored kernel, or stores and returns a fresh default one |
| CrelFeatureSet.CrelFeatureSet.Store | src/crel_feature_pass.cpp:98-104 | the kernel is stored under its name, other entries unchanged |
| CrelFeatureSet.CrelFeatureSet.Add | include/crel_feature_set.h:32-35 | the constant is added to (bb, feature) of the named kernel, created if absent |
| CrelFeatureSet.CrelFeatureSet.AddPoly | include/crel_feature_set.h:37-39 | the polynomial is added to (bb, feature) of the named kernel, created if absent |
| CrelFeatureSet.CrelFeatureSet.Eval | include/crel_feature_set.h:41-49 | an empty classification changes nothing; otherwise its feature of the instruction's block grows by the contribution |
| Evaluator.VarIndex | src/crel_feature_pass.cpp:272-280 | the first runtime variable whose value is the argument, or none |
| Evaluator.Int32Of | src/crel_feature_pass.cpp:325-342 | the 32-bit signed wrap of the shift factor |
| Evaluator.ShiftFactor | src/crel_feature_pass.cpp:325-360 | defined exactly for amounts 0 to 31, as the non-zero 32-bit value of 2^k |
| Evaluator.BitAnd64 | src/crel_feature_pass.cpp:362-396 | the bitwise and of two 64-bit numerators is a 64-bit value |
| Evaluator.BitXor64 | src/crel_feature_pass.cpp:362-396 | the bitwise xor of two 64-bit numerators is a 64-bit value |
| Evaluator.One | src/crel_feature_pass.cpp:413-421 | the fallback is the constant 1 |
| Evaluator.ArithNode | src/crel_feature_pass.cpp:301-323 | add and sub are coefficient-wise sum and difference; sdiv/udiv are defined exactly for non-zero divisors and give the divideby quotient |
| Evaluator.ShiftNode | src/crel_feature_pass.cpp:325-360 | a non-constant amount gives 1; a constant amount k gives the operand shifted by 2^k when 0 ≤ k ≤ 31 and is undefined otherwise |
| Evaluator.BitwiseNode | src/crel_feature_pass.cpp:362-396 | two constants give the and/xor of their numerators; otherwise 1 |
| Evaluator.EvalValueVariable | src/crel_feature_pass.cpp:272-280 | a runtime variable evaluates to 1·x_i for its first index i |
| Evaluator.EvalValueConstant | src/crel_feature_pass.cpp:288-299 | an integer constant evaluates to that constant |
| Evaluator.EvalValueFallback | src/crel_feature_pass.cpp:413-421 | an unrecognised instruction evaluates to 1 |
| Evaluator.EvalValueVariableFree | src/crel_feature_pass.cpp:269-423 | an expression without runtime variables evaluates to a constant |
| Evaluator.EvalScevLeaves | src/crel_feature_pass.cpp:435-450 | constants give constants; trunc/zext/sext are transparent; could-not-compute gives 1; unknown delegates to evaluateValue |
| Evaluator.EvalScevAdd | src/crel_feature_pass.cpp:452-458 | an add node gives the coefficient-wise sum of its operands, from zero, accumulator unchanged |
| Evaluator.EvalSumTotal | src/crel_feature_pass.cpp:452-458 | the loop over the add operands accumulates their sum |
| Evaluator.EvalScevMul | src/crel_feature_pass.cpp:460-467 | a mul node gives the product of its operands, from 1, accumulator unchanged |
| Evaluator.EvalProductAll | src/crel_feature_pass.cpp:460-467 | the loop over the mul operands folds them by multiplication |
| Evaluator.EvalScevUDiv | src/crel_feature_pass.cpp:469-478 | a udiv node returns 1 and replaces the accumulator by the quotient of accumulator·lhs by rhs |
| Evaluator.EvalScevMinMax | src/crel_feature_pass.cpp:490-509 | a min/max node with several operands evaluates its first non-constant operand |
| Evaluator.EvalScevReturnsAccumulator | src/crel_feature_pass.cpp:490-526 | AddRec, other kinds and all-constant min/max return the accumulator |
| Evaluator.EvalScevKeepsAccumulator | src/crel_feature_pass.cpp:431-527 | only a udiv node changes the accumulator |
| Evaluator.EvalScevConstant | src/crel_feature_pass.cpp:431-527 | a SCEV of constants evaluates to a constant |
| Evaluator.EvaluateValue | src/crel_feature_pass.cpp:269-423 | the recursive walk returns the value's polynomial |
| Evaluator.EvaluateScev | src/crel_feature_pass.cpp:431-527 | the recursive walk returns the SCEV's polynomial and the updated accumulator |
| Evaluator.SumOperands | src/crel_feature_pass.cpp:452-458 | the add-operand loop returns the sum and accumulator |
| Evaluator.MultiplyOperands | src/crel_feature_pass.cpp:460-467 | the mul-operand loop returns the product and accumulator |
| Evaluator.MinMaxOperand | src/crel_feature_pass.cpp:490-509 | the min/max loop returns the evaluation of its chosen operand |
| Dataflow.InitWithin | src/crel_feature_pass.cpp:186-192 | the initial inputs lie within their own coefficients and monomials |
| Dataflow.WithinMaxJoin | src/crel_feature_pass.cpp:195-220 | max-join creates no coefficient and no monomial that its operands lack |
| Dataflow.Progress | src/crel_feature_pass.cpp:195-220 | growing outputs never lose a dominated triple, and a strict raise gains one; the count is bounded |
| Dataflow.RaisedTerm | src/crel_feature_pass.cpp:195-220 | a strictly raised polynomial has a new or larger term |
| Dataflow.FoldJoinBounds | src/crel_feature_pass.cpp:207-209 | max-joining the successors' inputs into a block's output gives a result above the old output and above each successor's input, within the same bounds |
| Dataflow.JoinSuccessors | src/crel_feature_pass.cpp:207-209 | the loop's result is exactly the block's output max-joined with each successor's input in order (`FoldJoin`) |
| Dataflow.SweepToFrame | src/crel_feature_pass.cpp:201-219 | visiting blocks 0 to b-1 leaves every block from b on untouched |
| Dataflow.SweepToExits | src/crel_feature_pass.cpp:204 | a sweep leaves the input and output of a block without successors as they were |
| Dataflow.SweepToStep | src/crel_feature_pass.cpp:201-219 | visiting block b-1 changes block b-1 only |
| Dataflow.SweepToLast | src/crel_feature_pass.cpp:207-217 | the visit of block b-1 sets its output and its input to the fold, from its original output, over the successors' inputs as the earlier visits left them |
| Dataflow.SweepToVisited | src/crel_feature_pass.cpp:207-217 | every block with successors among the first b holds, as input and output, the fold it took when it was visited |
| Dataflow.SweepToBounds | src/crel_feature_pass.cpp:201-219 | a sweep keeps every polynomial within the initial coefficients and monomials and never lowers an output |
| Dataflow.SweepFacts | src/crel_feature_pass.cpp:201-219 | after a full sweep, bounds hold, outputs only grew, exits keep their values, inputs equal outputs, a change from a settled state raises some output, and a sweep that changes no input leaves every block above its successors |
| Dataflow.SweepCovers | src/crel_feature_pass.cpp:207-217 | after a full sweep that changes no input, every block is above all its successors |
| Dataflow.SweepsStep | src/crel_feature_pass.cpp:195-220 | sweep k+1 is one full sweep applied to the state sweep k left |
| Dataflow.SweepsFacts | src/crel_feature_pass.cpp:186-220 | every state the loop reaches keeps the lengths, the exit blocks' initial values and the bounds |
| Dataflow.SweepsProgress | src/crel_feature_pass.cpp:195-220 | a sweep that changes an input strictly raises the count of dominated triples |
| Dataflow.StopsEventually | src/crel_feature_pass.cpp:195-220 | some sweep at or after any given one changes nothing: the loop terminates |
| Dataflow.NoStopBeforeAll | src/crel_feature_pass.cpp:195-220 | no sweep before k stopped, stated sweep by sweep |
| Dataflow.StopsCovers | src/crel_feature_pass.cpp:195-220 | at a sweep that changes nothing, every block's input is above each of its successors' inputs |
| Dataflow.ResultUnique | src/crel_feature_pass.cpp:195-220 | the inputs the loop ends with are unique |
| Dataflow.Sweep | src/crel_feature_pass.cpp:201-219 | one sweep's new state equals the specification sweep `SweepTo` over all blocks, and it reports change exactly when some input changed |
| Dataflow.SweepsNext | src/crel_feature_pass.cpp:195-220 | the loop's state after one more sweep is the next `Sweeps` state |
| Dataflow.Fixpoint | src/crel_feature_pass.cpp:186-220 | the loop ends in the state of the first sweep that changes nothing (`FirstStop`, `Sweeps`); that state is settled, keeps the exits, is above the successors and stays bounded |
| Dataflow.StopFacts | src/crel_feature_pass.cpp:195-220 | the state at a stopping sweep is settled, keeps the exits, is above the successors and is bounded |
| Dataflow.ResultSolution | src/crel_feature_pass.cpp:186-223 | the loop's result is a data-flow solution: exits at their local cost and every block above its successors |
| Dataflow.IfElseFirstVisit | src/crel_feature_pass.cpp:201-219 | in an if/else kernel with costs 5 and 2 on the arms, the first visit raises the entry to 5 |
| Dataflow.IfElseFirstSweep | src/crel_feature_pass.cpp:201-219 | the first sweep over the if/else kernel reaches entry 5 with the other blocks at zero |
| Dataflow.IfElseSecondSweep | src/crel_feature_pass.cpp:201-219 | the second sweep over the if/else kernel changes nothing |
| Dataflow.IfElseEntry | src/crel_feature_pass.cpp:186-223 | the loop's only result on the if/else kernel gives the entry the larger arm's cost, 5 |
| Dataflow.SolutionAlongPath | src/crel_feature_pass.cpp:179-223 | a block's result covers every block it reaches, and so the local cost of every reachable exit |
| CrelFeaturePass.ResetRowEffect | src/crel_feature_pass.cpp:107-117 | step 1 sets each vocabulary feature of the block to zero and nothing else |
| CrelFeaturePass.Labels | src/crel_feature_pass.cpp:107-117 | the classification of each instruction of a block |
| CrelFeaturePass.EvalLabelsFrame | include/crel_feature_set.h:41-49 | evaluating a block touches only that block's features and counts its classified instructions |
| CrelFeaturePass.EvalLabelsCount | include/crel_feature_set.h:41-49 | a feature of the block grows by the number of its instructions classified under it |
| CrelFeaturePass.EvalStepCount | include/crel_feature_set.h:41-49 | one instruction adds 1 to its own feature only |
| CrelFeaturePass.BlockLabels | src/crel_feature_pass.cpp:107-117 | the classifications of every block |
| CrelFeaturePass.EvalBlocksFrame | src/crel_feature_pass.cpp:107-117 | step 1 touches only the function's blocks and only block features |
| CrelFeaturePass.EvalBlocksCount | src/crel_feature_pass.cpp:107-117 | after step 1, a feature of a block counts its instructions classified under it (from zero for vocabulary features) |
| CrelFeaturePass.ResetCount | src/crel_feature_pass.cpp:107-117 | after step 1 a vocabulary feature of block b is exactly b's count |
| CrelFeaturePass.Multiplier | src/crel_feature_pass.cpp:136-152 | a non-zero small constant trip count is the multiplier; otherwise the evaluated backedge-taken count |
| CrelFeaturePass.ZeroMultiplier | src/crel_feature_pass.cpp:136-152 | a loop without a constant trip count whose backedge-taken count is an AddRec, an unknown kind or a min/max of constants gets the zero multiplier |
| CrelFeaturePass.MultipliersEffect | src/crel_feature_pass.cpp:123-154 | step 2 records each loop's multiplier under the loop and keeps other entries |
| CrelFeaturePass.ScaleRowEffect | src/crel_feature_pass.cpp:163-168 | each vocabulary feature of the block is multiplied by m, others kept |
| CrelFeaturePass.ScaleLoopEffect | src/crel_feature_pass.cpp:161-173 | every block of the loop is scaled by its multiplier, others kept |
| CrelFeaturePass.ScaleLoopsEffect | src/crel_feature_pass.cpp:156-174 | each block is multiplied by the multipliers of every loop containing it, in preorder |
| CrelFeaturePass.Succs | src/crel_feature_pass.cpp:195-220 | the successor lists of the blocks |
| CrelFeaturePass.Inputs | src/crel_feature_pass.cpp:186-192 | the initial input of each block is its feature polynomial |
| CrelFeaturePass.ResetFeatures | src/crel_feature_pass.cpp:110-112 | zeroes the vocabulary features of one block |
| CrelFeaturePass.EvalStored | include/crel_feature_set.h:41-49 | one instruction evaluated into the stored kernel |
| CrelFeaturePass.EvalBlock | src/crel_feature_pass.cpp:113-116 | every instruction of a block evaluated in order |
| CrelFeaturePass.AccumulateBlocks | src/crel_feature_pass.cpp:107-117 | step 1 over every block |
| CrelFeaturePass.AccumulateBlock | src/crel_feature_pass.cpp:108-117 | one block reset and then evaluated |
| CrelFeaturePass.LoopMultiplier | src/crel_feature_pass.cpp:136-152 | computes the loop's multiplier |
| CrelFeaturePass.LoopMultipliers | src/crel_feature_pass.cpp:123-154 | step 2 over the preorder of the loop forest |
| CrelFeaturePass.NestMultipliers | src/crel_feature_pass.cpp:125-153 | step 2 over one nest |
| CrelFeaturePass.ApplyMultipliers | src/crel_feature_pass.cpp:156-174 | step 3 scales the block features by their loops' multipliers |
| CrelFeaturePass.ScaleLoopBlocks | src/crel_feature_pass.cpp:161-173 | step 3 for one loop |
| CrelFeaturePass.ScaleBlock | src/crel_feature_pass.cpp:163-172 | step 3 for one block |
| CrelFeaturePass.InitialInputs | src/crel_feature_pass.cpp:186-192 | the data-flow starts from each block's feature polynomial |
| CrelFeaturePass.DataflowFeatures | src/crel_feature_pass.cpp:178-225 | each vocabulary feature becomes the entry input that the fixpoint loop ends with for it (`Result`, hence a `Solution`); other kernel state unchanged |
| CrelFeaturePass.AnalyseFeature | src/crel_feature_pass.cpp:180-223 | one feature: from the block polynomials, the block inputs are exactly what the fixpoint loop ends with (`Result`, hence a `Solution`), and its entry value becomes the kernel feature; nothing else in the kernel changes |
| CrelFeaturePass.Steps123 | src/crel_feature_pass.cpp:107-174 | steps 1 to 3 leave valid polynomials and a multiplier for every loop |
| CrelFeaturePass.BlockCost | src/crel_feature_pass.cpp:107-174 | before the data-flow, a block's feature is its instruction count times the multipliers of its loops |
| CrelFeaturePass.ScaledCount | src/crel_feature_pass.cpp:107-174 | scaling the counts of step 1 multiplies each by its loops' multipliers |
| CrelFeaturePass.FeatureCoversExits | src/crel_feature_pass.cpp:178-225 | the kernel's result for a feature covers the scaled cost of every exit block reachable from the entry |
| CrelFeaturePass.EvalFunction | src/crel_feature_pass.cpp:82-225 | non-kernels change nothing; a kernel's entry (stored if absent) ends in the state of steps 1 to 3 followed by the fixpoint loop's result for every feature |
| CrelFeaturePass.StoreKernel | src/crel_feature_pass.cpp:98-104 | the kernel entry is the existing one, or a fresh one built from the function |
| CrelFeaturePass.PolyCrelSteps | src/crel_feature_pass.cpp:107-225 | the stored kernel ends in the state of steps 1 to 3 followed by the fixpoint loop's result for every feature |
| CrelFeaturePass.Steps234 | src/crel_feature_pass.cpp:123-225 | after step 1, the kernel ends in the state of steps 2 and 3 followed by the fixpoint loop's result for every feature |
| CrelFeaturePass.FeaturePassEvalFunction | src/crel_feature_pass.cpp:36-47 | every instruction of every block evaluated into the function's kernel, created if absent |
| CrelFeaturePass.EvalBlocksOnce | src/crel_feature_pass.cpp:30-34 | every instruction evaluated once, no reset |
| KernelInvariants.KernelInvariant.constructor | include/KernelInvariant.hpp:51-128 | the invariants are the arguments and then the calls of every block |
| KernelInvariants.KernelInvariant.RecordArgs | include/KernelInvariant.hpp:53-60 | the argument loop leaves exactly the scalar arguments, each under its position |
| KernelInvariants.KernelInvariant.RecordBlock | include/KernelInvariant.hpp:63-127 | one block's instructions are recorded in order, a later call overwriting an earlier one |
| KernelInvariants.CallInvariantsAppend | include/KernelInvariant.hpp:63-127 | walking the blocks one after another is walking their instructions concatenated |
| KernelInvariants.KernelInvariant.RecordCall | include/KernelInvariant.hpp:63-127 | one instruction records what its call kind records |
| KernelInvariants.KernelInvariant.IsInvariant | include/KernelInvariant.hpp:141-154 | the smallest ordinal whose value is the query, or none |
| KernelInvariants.ArgInvariantsAt | include/KernelInvariant.hpp:53-60 | a non-pointer argument at i is recorded under i; a pointer argument is not |
| KernelInvariants.ArgInvariantsKeys | include/KernelInvariant.hpp:53-60 | argument ordinals are argument positions |
| KernelInvariants.CallStepKeeps | include/KernelInvariant.hpp:63-127 | calls change no ordinal outside gs0..sgs |
| KernelInvariants.CallInvariantsKeep | include/KernelInvariant.hpp:63-127 | the whole call walk changes no ordinal outside gs0..sgs |
| KernelInvariants.CallInvariantsBounded | include/KernelInvariant.hpp:63-127 | calls record only the named ordinals |
| KernelInvariants.CollectBounded | include/KernelInvariant.hpp:51-128 | every recorded ordinal is below the bound |
| KernelInvariants.CollectArgs | include/KernelInvariant.hpp:51-128 | argument i below gs0 is recorded exactly when it is not a pointer |
| KernelInvariants.SizeQuery | include/KernelInvariant.hpp:83-115 | get_global_size(d) and get_local_size(d) with a constant d of 0 to 2 and at most 32 bits record the callee under gs_d and ls_d, and nothing else; a one-argument call with another name records nothing |
| KernelInvariants.SizeQueryIgnored | include/KernelInvariant.hpp:86-98 | a one-argument call whose argument is not a constant, is wider than 32 bits or is outside 0 to 2 records nothing |
| KernelInvariants.NotDemangledIgnored | include/KernelInvariant.hpp:65-76 | a non-call, or a call whose callee's name does not demangle, records nothing |
| KernelInvariants.SubGroupQuery | include/KernelInvariant.hpp:117-123 | argument-less get_num_sub_groups and get_sub_group_size record the callee under nsg and sgs; other argument-less calls record nothing |
| KernelInvariants.OtherCallIgnored | include/KernelInvariant.hpp:83-123 | a call with two or more arguments records nothing |
| MemAccess.ClAddressSpaceType | include/MemAccessFeature.hpp:81-93 | ids 0 to 5 map to their address space, others to Generic, as in the helper header |
| MemAccess.IsGlobalMemoryAccess | include/MemAccessFeature.hpp:96-98 | true exactly for address space 3 |
| MemAccess.IsLocalMemoryAccess | include/MemAccessFeature.hpp:100-102 | true exactly for address space 1 |
| MemAccess.IsConstantMemoryAccess | include/MemAccessFeature.hpp:104-106 | true exactly for address space 1 |
| MemAccess.GetCoalescedMemAccess | include/MemAccessFeature.hpp:22-73 | mem_access counts distinct GEPs on pointer arguments; mem_coalesced counts global-id-indexed pairs and constant-indexed GEPs |
| MemAccess.CollectGeps | include/MemAccessFeature.hpp:26-41 | exactly the GEPs that use a pointer argument, each once |
| MemAccess.CallHits | include/MemAccessFeature.hpp:43-63 | the GEPs indexed by each use of one get_global_id call |
| MemAccess.CountWhere | include/MemAccessFeature.hpp:65-71 | the number of GEPs passing the test |
| MemAccess.NoPointerArgs | include/MemAccessFeature.hpp:22-73 | without pointer arguments both counts are 0 |
| MemAccess.NoHits | include/MemAccessFeature.hpp:43-63 | no GEP, no hit |
| CounterFeatureSet.IgnoredNotClaimed | src/FeatureSet.cpp:122-173 | no opcode that passes the ignore test is claimed by an earlier rule of Fan19's eval: the exact-match ignore lists share no name with those rules, and no name those rules claim contains an OpenCL name |
| CounterFeatureSet.Fan19IgnoredCountsNothing | src/FeatureSet.cpp:169-173 | an instruction whose opcode passes the ignore test is not an indirect call and adds to no Fan19 counter |
| CounterFeatureSet.FeatureSet.constructor | include/FeatureSet.hpp:31-32 | a new set has empty counters and the given instruction counters |
| CounterFeatureSet.FeatureSet.Add | include/FeatureSet.hpp:49-54 | raw[name] grows by c mod 2^32, instruction_num by 1, total by c, nothing else |
| CounterFeatureSet.FeatureSet.ResetAll | include/FeatureSet.hpp:40-47 | every raw and feat entry zeroed, keys kept, both counters 0 |
| CounterFeatureSet.FeatureSet.Fan19Reset | src/FeatureSet.cpp:109-120 | exactly the ten Fan19 counters set to 0 |
| CounterFeatureSet.FeatureSet.Grewe11Reset | src/FeatureSet.cpp:179-195 | exactly the Grewe11 counters set to 0 |
| CounterFeatureSet.FeatureSet.Reset | src/FeatureSet.cpp:109-120 | the variant's reset: Fan19 and Grewe11 zero exactly their own counters, keep every other raw entry, feat and both instruction counters; Full zeroes every raw and feat entry, keeps their keys and zeroes both counters |
| CounterFeatureSet.FeatureSet.Eval | src/FeatureSet.cpp:122-266 | the variant's features of the instruction each get the contribution; Full accepts any instruction, indirect calls included, since it reads only the opcode |
| CounterFeatureSet.FeatureSet.Fan19Eval | src/FeatureSet.cpp:122-176 | Fan19's features of the instruction each get the contribution |
| CounterFeatureSet.FeatureSet.Grewe11Eval | src/FeatureSet.cpp:197-251 | Grewe11's features of the instruction each get the contribution |
| CounterFeatureSet.FeatureSet.Grewe11Normalize | src/FeatureSet.cpp:253-262 | mem_coal is 0 without accesses, else the integer quotient coalesced / accesses |
| CounterFeatureSet.MemCoalWithoutPointers | src/FeatureSet.cpp:253-262 | without pointer arguments mem_coal is 0 |
| CounterFeatureSet.AddedAllCount | include/FeatureSet.hpp:49-54 | a counter grows by c per occurrence of its name, mod 2^32 |
| CounterFeatureSet.AddedAllKeys | include/FeatureSet.hpp:49-54 | adding creates exactly the added names |
| CounterFeatureSet.AddedAllTotals | include/FeatureSet.hpp:52-53 | instruction_num grows by the number of adds, total by their contributions |
| CounterFeatureSet.Fan19Arithmetic | src/FeatureSet.cpp:125-131 | each arithmetic class maps to its one Fan19 counter, and only that class does |
| CounterFeatureSet.Fan19Call | src/FeatureSet.cpp:133-151 | a call counts as sp_fun exactly when special, never as memory |
| CounterFeatureSet.Fan19Memory | src/FeatureSet.cpp:153-168 | space 1 gives mem_gl, space 3 gives mem_loc, others nothing |
| CounterFeatureSet.Fan19Vocabulary | src/FeatureSet.cpp:109-176 | at most one counter, always one that reset creates |
| CounterFeatureSet.Grewe11Arithmetic | src/FeatureSet.cpp:202-209 | integer and bitwise ops give int, float ops give float |
| CounterFeatureSet.Grewe11Memory | src/FeatureSet.cpp:234-248 | every access gives mem_acc, and mem_loc in space 1 |
| CounterFeatureSet.Grewe11Vocabulary | src/FeatureSet.cpp:179-251 | at most two counters, all created by reset |
| LoopMultipliers.ToInt32 | src/FeaturePass.cpp:121-127 | the unsigned multiplier read back as a 32-bit int |
| LoopMultipliers.WrapMul | src/FeaturePass.cpp:99-117 | wrapping before or after multiplying gives the same 32 bits |
| LoopMultipliers.TripCountContribution | src/FeaturePass.cpp:104-113 | trip count for the exiting block, trip count − 1 for others, 100 when the count is ≤ 1 |
| LoopMultipliers.LoopContribution | src/Kofler13Analysis.cpp:99-123 | the final IV when canonical, bounded and a constant of ≤ 32 bits; otherwise 100 |
| LoopMultipliers.InitialMultipliers | src/FeaturePass.cpp:90-93 | every block starts at 1 |
| LoopMultipliers.ScaleLoop | src/FeaturePass.cpp:99-117 | each block of the loop is multiplied by its contribution, others kept |
| LoopMultipliers.ScaleLoops | src/FeaturePass.cpp:99-117 | each block ends at the product of its contributions over the loops |
| LoopMultipliers.ProductAppend | src/FeaturePass.cpp:99-117 | products over consecutive loop lists multiply |
| LoopMultipliers.ProductOutside | src/FeaturePass.cpp:90-93 | a block in no loop keeps 1 |
| LoopMultipliers.Unroll100Product | src/feature_pass.cpp:70-85 | the ×100 heuristic gives 100 to the number of loops containing the block |
| LoopMultipliers.SingleLoopTripCount | src/FeaturePass.cpp:104-113 | in one loop, a block gets t, t − 1 or 100 |
| FeaturePasses.TraceInstrs | src/FeaturePass.cpp:30-33 | the trace lists every instruction of every block once, in order |
| FeaturePasses.TraceAt | src/FeaturePass.cpp:121-127 | instruction k of block b is evaluated with b's multiplier |
| FeaturePasses.EvaluatedAllAppend | src/FeaturePass.cpp:30-33 | evaluating two traces in turn is evaluating their concatenation |
| FeaturePasses.FullTotals | src/FeatureSet.cpp:264-266 | Full counts every call once and sums the contributions, for any calls, indirect ones included |
| FeaturePasses.EvalBB | src/FeaturePass.cpp:24-28 | every instruction of the block evaluated with contribution 1 |
| FeaturePasses.EvalInstructions | src/FeaturePass.cpp:121-127 | every instruction evaluated with the same contribution |
| FeaturePasses.EvalBlocks | src/FeaturePass.cpp:119-128 | every block's instructions evaluated with the block's multiplier |
| FeaturePasses.EvalFunction | src/FeaturePass.cpp:30-33 | every instruction of every block evaluated once with contribution 1 |
| FeaturePasses.FeaturePassCountsInstructions | src/FeaturePass.cpp:24-33 | on a full feature set, instruction_num grows by the number of instructions of any function |
| FeaturePasses.NestMultipliers | src/FeaturePass.cpp:94-117 | each block's multiplier is the product of its contributions over the preorder forest |
| FeaturePasses.EvalScaled | src/FeaturePass.cpp:119-128 | each instruction evaluated once with its block's multiplier as int |
| FeaturePasses.Kofler13PassEvalFunction | src/FeaturePass.cpp:83-129 | declarations change nothing; otherwise every instruction evaluated once with the trip-count multiplier of its block |
| FeaturePasses.Kofler13PassOutsideLoops | src/FeaturePass.cpp:90-93 | a block in no loop has multiplier 1 |
| FeaturePasses.ExtractScaled | src/Kofler13Analysis.cpp:34-67 | each block's multiplier, as written, is the product over top-level loops times the product over the preorder forest |
| FeaturePasses.ExtractArith | src/Kofler13Analysis.cpp:51-67 | the order of the wrapped multiplications does not matter |
| FeaturePasses.Kofler13Extract | src/Kofler13Analysis.cpp:25-97 | as written: declarations change nothing; otherwise every instruction evaluated with the as-written multiplier |
| FeaturePasses.Kofler13ExtractIntended | src/Kofler13Analysis.cpp:25-97 | every instruction evaluated with the product of its loops' contributions, each loop once |
| FeaturePasses.ExtractSingleLoop | src/Kofler13Analysis.cpp:51-67 | in a single loop the as-written multiplier is the contribution squared, the intended one the contribution |
| FeaturePasses.ExtractCountsTopLevelTwice | src/Kofler13Analysis.cpp:51-67 | a loop with final IV 8 gives 64 as written and 8 as intended |
| FeaturePasses.Unroll100Scaled | src/feature_pass.cpp:70-85 | ×100 per top-level loop containing the block |
| FeaturePasses.TraceScaled | src/feature_pass.cpp:88-94 | each instruction evaluated once with its block's multiplier |
| FeaturePasses.LegacyPassEvalFunction | src/feature_pass.cpp:24-33 | every instruction evaluated once with the default contribution |
| FeaturePasses.LegacyKofler13Pass | src/feature_pass.cpp:63-96 | declarations give no call; otherwise every instruction with its ×100 multiplier |
| FeaturePasses.LegacyKofler13Eval | src/feature_eval.cpp:49-80 | every instruction with its ×100 multiplier |
| FeaturePasses.Unroll100Multiplier | src/feature_eval.cpp:54-68 | the multiplier is 100 to the number of top-level loops containing the block; 1 outside loops |
| LegacyFeatureSet.FeatureCounters.constructor | src/feature_set.cpp:62-126 | a new set has no counter |
| LegacyFeatureSet.FeatureCounters.Add | include/feature_set.h:19-22 | the named counter grows by 1, created at 0 |
| LegacyFeatureSet.FeatureCounters.EvalInstruction | src/feature_set.cpp:62-126 | the variant's names of the instruction each bumped once |
| LegacyFeatureSet.FeatureCounters.GpuEvalInstruction | src/feature_set.cpp:62-116 | the gpu name of the instruction bumped once |
| LegacyFeatureSet.GpuOneCounter | src/feature_set.cpp:62-116 | every instruction bumps exactly one gpu counter; calls bump "other" |
| LegacyFeatureSet.BumpedCount | include/feature_set.h:19-22 | a counter grows by the number of occurrences of its name |
| LegacyFeatureSet.BumpedAppend | include/feature_set.h:19-22 | bumping two lists in turn is bumping their concatenation |
| LegacyFeatureSet.LegacyNamesLength | src/feature_set.cpp:62-126 | gpu and full give one name per instruction; grewe11 gives none |
| LegacyFeatureSet.CheckAddrSpace | src/feature_set.cpp:128-139 | 1 is Local, 2 Global, 0 Private, anything else Unknown |
| LegacyFeatureSet.EvalBB | src/feature_eval.cpp:17-21 | every instruction of the block evaluated once |
| LegacyFeatureSet.EvalFunction | src/feature_eval.cpp:17-26 | every instruction of every block evaluated once |
| LegacyFeatureSet.LegacyNamesAppend | src/feature_eval.cpp:17-26 | the names of concatenated instruction lists concatenate |
| LegacyFeatureSet.RunOnFunction | src/feature_eval.cpp:32-37 | evaluates the function and reports it unmodified |
| LegacyFeatureSet.GpuPassCounts | src/feature_eval.cpp:17-26 | the gpu pass makes one count per instruction |

## Left out

- Printing and rendering: `toString`, every `print*` method, debug output and diagnostics sent to `cerr`/`errs`. Diagnostics are no-ops in the model.
- Float normalisation (`feature_set.h`, `feature_norm.h`, `FeatureNormalization.hpp`) and the base `FeatureSet::normalize`, which only prints.
- FLINT internals: term order, degree bounds, and the `push_term` without re-sort in `maxjoin`. A polynomial is a map from exponent vectors to non-zero rationals.
- Exact multivariate division: the outcome of `fmpq_mpoly_divides` is an input whose soundness is a precondition (`SoundOracle`, `QuotientSound`).
- LLVM pass plumbing, LoopInfo, ScalarEvolution, `getSmallConstantTripCount`, `getBackedgeTakenCount` and `LoopBounds`: their results are fields of the input datatypes.
- Name demangling: the demangled name is a field of the callee.
- Iteration order of `unordered_map`: step 3 of `poly_crel_pass::eval_function` walks the kernel's loop-multiplier map; the model walks the current function's loop forest in preorder instead. The two give the same block features only because products of polynomials commute, which is not proved (see the Mpoly.Mul line).
- Stale loop multipliers left by an earlier run of the same kernel name: the model requires the stored entry to have none for loops the function lacks (`Resumable`).
- Iteration order of an instruction's users: `getCoalescedMemAccess` counts, so the order does not change the result.
- `KernelInvariant::enumerate`: it returns its argument's ordinal, which is the ordinal itself in the model.
- `KernelInvariant::isInvariant`'s loop over uses: it compares a use with the value, which is the same test as the first comparison, so the model has only the first.
- KernelInvariants.KernelInvariant.constructor: a scalar argument at position 10 or more is recorded under the same ordinal as `gs0` and later names, exactly as the source does; this sharing is not separated out.
- CrelKernel.CrelKernel.Add: `instructionNum` is unbounded; the source's `int` overflow is not modelled.
- CounterFeatureSet.FeatureSet.Add: `instruction_num` and `instruction_tot_contrib` are unbounded; the source's `int` overflow is not modelled. The `unsigned` raw counters do wrap modulo 2^32.
- CounterFeatureSet.FeatureSet.constructor: the source leaves the two instruction counters uninitialised, so their initial values are parameters.
- LegacyFeatureSet.FeatureCounters.Add: the legacy raw counters are unbounded; `int` overflow is not modelled.
- The legacy passes (`feature_pass.cpp`, `feature_eval.cpp`) call an evaluation entry point that their feature set does not define, so they are modelled by the sequence of calls they make (`FeaturePasses.Call`).
- LoopMultipliers: signed `int` multiplication overflow in the passes is undefined behaviour in C++; the model takes the two's-complement result, as `unsigned` arithmetic would.
- Mpoly.CrelMpoly.IsEqual: it has no contract of its own; its meaning is stated by `Mpoly.IsEqualCoefficients`.
- Mpoly.Mul: its own contract states only well-formedness; the product's laws are stated by `Mpoly.TimesConst`, `Mpoly.MulConstants` and `Mpoly.TimesZero`. The term-order independence of the product is not proved.
- Evaluator.EvalValue: the arithmetic, shift and bitwise cases are stated on the node functions `ArithNode`, `ShiftNode` and `BitwiseNode`, not as unfoldings of the walk.
- Evaluator.EvalScevMul: the product is stated as a left fold of the operands from 1; associativity of polynomial multiplication is not proved.
- Evaluator.ArithNode: signed and unsigned division are both `divideby`, as in the source; the model does not distinguish them.
- The `crel_mpoly` degree argument and the default constructor with one variable: default-created kernel entries use the kernel's variable count, which gives the same values.
- Mpoly.CrelMpoly.GetConstantNominator: the numerator is stated only when FLINT stores it as a small integer (|n| < 2^62); larger numerators are pointers in FLINT.
- Mpoly.CrelMpoly.GetConstantDenominator: the denominator is stated only when FLINT stores it as a small integer (d < 2^62); larger denominators are pointers in FLINT.
- Process and file I/O (`crel_extractor.cpp`) and command-line parsing.
- The thin FLINT wrapper `IMPoly` and the declaration-only headers.

## Findings

| source | as written | input that shows it | evidently intended | confidence | as-written member | corrected member |
|---|---|---|---|---|---|---|
| src/Kofler13Analysis.cpp:51-67 | each top-level loop's blocks are multiplied by its contribution, then by the contribution of every loop in its preorder list, which starts with the loop itself, so a top-level loop counts twice | a kernel with one canonical loop whose final induction value is 8 (`EightLoopKernel`): its block gets 64 | each loop contributes once: 8 | not executed | FeaturePasses.ExtractCountsTopLevelTwice | FeaturePasses.Kofler13ExtractIntended |
