/**
 * The passes that feed a counter feature set: the default pass (every
 * instruction counts once), the Kofler et al. loop-heuristic pass and
 * analysis (every instruction counts with its block's loop multiplier), and
 * the legacy passes, whose feature set has no evaluation entry point and
 * which are therefore modelled by the sequence of evaluation calls they make.
 */
module FeaturePasses {
  import opened Ir
  import opened CounterFeatureSet
  import opened LoopMultipliers

  /** One call `eval(inst, contribution)`. */
  datatype Call = Call(inst: Instruction, contribution: int)

  /** The calls for the instructions of one block, in order, all with the same contribution. */
  function Calls(instrs: seq<Instruction>, c: int): (r: seq<Call>)
    ensures |r| == |instrs| && forall k | 0 <= k < |instrs| :: r[k] == Call(instrs[k], c)
  {
    seq(|instrs|, k requires 0 <= k < |instrs| => Call(instrs[k], c))
  }

  /** The calls for every block in order, block `b` contributing `ms[b]` per instruction. */
  function Trace(blocks: seq<Block>, ms: seq<int>): seq<Call>
    requires |blocks| <= |ms|
  {
    if blocks == [] then [] else Trace(blocks[..|blocks| - 1], ms) + Calls(blocks[|blocks| - 1].instrs, ms[|blocks| - 1])
  }

  /** A feature set of kind `kind` can evaluate every call: only a full one takes indirect calls. */
  predicate Direct(kind: Kind, calls: seq<Call>) {
    forall j | 0 <= j < |calls| :: Evaluable(kind, calls[j].inst)
  }

  /** The counters after evaluating `calls`, in order, on a feature set of kind `kind`. */
  function EvaluatedAll(v: Counters, kind: Kind, calls: seq<Call>): Counters
    requires Direct(kind, calls)
  {
    if calls == [] then v
    else
      var last := calls[|calls| - 1];
      AddedAll(EvaluatedAll(v, kind, calls[..|calls| - 1]), Features(kind, last.inst), last.contribution)
  }

  /** The contribution 1 for each of `n` blocks. */
  function Ones(n: nat): (r: seq<int>)
    ensures |r| == n && forall b | 0 <= b < n :: r[b] == 1
  {
    seq(n, b => 1)
  }

  /** The multipliers read back as `int`, block by block. */
  function Signed(m: seq<u32>): (r: seq<int>)
    ensures |r| == |m| && forall b | 0 <= b < |m| :: r[b] == ToInt32(m[b])
  {
    seq(|m|, b requires 0 <= b < |m| => ToInt32(m[b]))
  }

  /** The trace lists the function's instructions in order, once each. */
  lemma {:induction false} TraceInstrs(blocks: seq<Block>, ms: seq<int>)
    requires |blocks| <= |ms|
    ensures |Trace(blocks, ms)| == |Instrs(blocks)|
    ensures forall j | 0 <= j < |Instrs(blocks)| :: Trace(blocks, ms)[j].inst == Instrs(blocks)[j]
  {
    if blocks != [] {
      TraceInstrs(blocks[..|blocks| - 1], ms);
    }
  }

  /** Instruction `k` of block `b` is evaluated with `ms[b]`, at its place in the function's instruction list. */
  lemma {:induction false} TraceAt(blocks: seq<Block>, ms: seq<int>, b: nat, k: nat)
    requires |blocks| <= |ms| && b < |blocks| && k < |blocks[b].instrs|
    ensures |Instrs(blocks[..b])| + k < |Trace(blocks, ms)|
    ensures Trace(blocks, ms)[|Instrs(blocks[..b])| + k] == Call(blocks[b].instrs[k], ms[b])
  {
    var last := |blocks| - 1;
    TraceInstrs(blocks[..last], ms);
    if b < last {
      assert blocks[..last][..b] == blocks[..b];
      TraceAt(blocks[..last], ms, b, k);
    } else {
      assert blocks[..b] == blocks[..last];
    }
  }

  /** A function without indirect calls has a trace without them. */
  lemma TraceDirect(kind: Kind, f: Function, ms: seq<int>)
    requires (kind != Full ==> NoIndirectCalls(f)) && |f.blocks| <= |ms|
    ensures Direct(kind, Trace(f.blocks, ms))
  {
    forall j | kind != Full && 0 <= j < |Trace(f.blocks, ms)|
      ensures !IsIndirectCall(Trace(f.blocks, ms)[j].inst)
    {
      TraceInstrs(f.blocks, ms);
      InstrsDirect(f.blocks, Instrs(f.blocks)[j]);
    }
  }

  lemma {:induction false} InstrsDirect(blocks: seq<Block>, x: Instruction)
    requires forall b, k | 0 <= b < |blocks| && 0 <= k < |blocks[b].instrs| :: !IsIndirectCall(blocks[b].instrs[k])
    requires x in Instrs(blocks)
    ensures !IsIndirectCall(x)
  {
    var last := |blocks| - 1;
    if x !in blocks[last].instrs {
      InstrsDirect(blocks[..last], x);
    }
  }

  /** Evaluating one more call extends the fold. */
  lemma EvaluatedAllSnoc(v: Counters, kind: Kind, calls: seq<Call>, c: Call)
    requires Direct(kind, calls) && Evaluable(kind, c.inst)
    ensures Direct(kind, calls + [c])
    ensures EvaluatedAll(v, kind, calls + [c]) == AddedAll(EvaluatedAll(v, kind, calls), Features(kind, c.inst), c.contribution)
  {
    assert (calls + [c])[..|calls|] == calls;
  }

  /** A full feature set counts one instruction per call, and every contribution in its total. */
  lemma {:induction false} FullTotals(v: Counters, calls: seq<Call>)
    ensures EvaluatedAll(v, Full, calls).instructionNum == v.instructionNum + |calls|
    ensures EvaluatedAll(v, Full, calls).totContrib == v.totContrib + SumContributions(calls)
  {
    if calls != [] {
      var init := calls[..|calls| - 1];
      var last := calls[|calls| - 1];
      FullTotals(v, init);
      AddedAllTotals(EvaluatedAll(v, Full, init), [last.inst.opcode], last.contribution);
    }
  }

  function SumContributions(calls: seq<Call>): int {
    if calls == [] then 0 else SumContributions(calls[..|calls| - 1]) + calls[|calls| - 1].contribution
  }

  // ---------------------------------------------------------------------------
  // FeaturePass (src/FeaturePass.cpp)
  // ---------------------------------------------------------------------------

  /** `FeaturePass::eval_BB`: each instruction with the default contribution 1. */
  method EvalBB(fs: FeatureSet, bb: Block)
    requires forall k | 0 <= k < |bb.instrs| :: Evaluable(fs.kind, bb.instrs[k])
    modifies fs
    ensures Direct(fs.kind, Calls(bb.instrs, 1))
    ensures fs.View() == EvaluatedAll(old(fs.View()), fs.kind, Calls(bb.instrs, 1))
    ensures fs.feat == old(fs.feat)
  {
    EvalInstructions(fs, bb.instrs, 1);
  }

  /** Each instruction of a block, in order, with contribution `c`. */
  method EvalInstructions(fs: FeatureSet, instrs: seq<Instruction>, c: int)
    requires forall k | 0 <= k < |instrs| :: Evaluable(fs.kind, instrs[k])
    modifies fs
    ensures Direct(fs.kind, Calls(instrs, c))
    ensures fs.View() == EvaluatedAll(old(fs.View()), fs.kind, Calls(instrs, c))
    ensures fs.feat == old(fs.feat)
  {
    for k := 0 to |instrs|
      invariant Direct(fs.kind, Calls(instrs[..k], c))
      invariant fs.View() == EvaluatedAll(old(fs.View()), fs.kind, Calls(instrs[..k], c))
      invariant fs.feat == old(fs.feat)
    {
      assert Calls(instrs[..k + 1], c) == Calls(instrs[..k], c) + [Call(instrs[k], c)];
      EvaluatedAllSnoc(old(fs.View()), fs.kind, Calls(instrs[..k], c), Call(instrs[k], c));
      fs.Eval(instrs[k], c);
    }
    assert instrs[..|instrs|] == instrs;
  }

  /** Every block in order, block `b` with contribution `ms[b]`. */
  method EvalBlocks(fs: FeatureSet, blocks: seq<Block>, ms: seq<int>)
    requires |blocks| <= |ms|
    requires forall b, k | 0 <= b < |blocks| && 0 <= k < |blocks[b].instrs| :: Evaluable(fs.kind, blocks[b].instrs[k])
    modifies fs
    ensures Direct(fs.kind, Trace(blocks, ms))
    ensures fs.View() == EvaluatedAll(old(fs.View()), fs.kind, Trace(blocks, ms))
    ensures fs.feat == old(fs.feat)
  {
    for b := 0 to |blocks|
      invariant Direct(fs.kind, Trace(blocks[..b], ms))
      invariant fs.View() == EvaluatedAll(old(fs.View()), fs.kind, Trace(blocks[..b], ms))
      invariant fs.feat == old(fs.feat)
    {
      ghost var done := Trace(blocks[..b], ms);
      ghost var mid := fs.View();
      assert blocks[..b + 1][..b] == blocks[..b];
      assert Trace(blocks[..b + 1], ms) == done + Calls(blocks[b].instrs, ms[b]);
      EvalInstructions(fs, blocks[b].instrs, ms[b]);
      EvaluatedAllAppend(old(fs.View()), fs.kind, done, Calls(blocks[b].instrs, ms[b]));
    }
    assert blocks[..|blocks|] == blocks;
  }

  /** Evaluating two lists of calls one after the other. */
  lemma {:induction false} EvaluatedAllAppend(v: Counters, kind: Kind, a: seq<Call>, c: seq<Call>)
    requires Direct(kind, a) && Direct(kind, c)
    ensures Direct(kind, a + c)
    ensures EvaluatedAll(v, kind, a + c) == EvaluatedAll(EvaluatedAll(v, kind, a), kind, c)
  {
    if c == [] {
      assert a + c == a;
    } else {
      var init := c[..|c| - 1];
      EvaluatedAllAppend(v, kind, a, init);
      assert (a + c)[..|a + c| - 1] == a + init;
      assert (a + c)[|a + c| - 1] == c[|c| - 1];
    }
  }

  /** `FeaturePass::eval_function`: every block, every instruction with contribution 1. */
  method EvalFunction(fs: FeatureSet, f: Function)
    requires fs.kind != Full ==> NoIndirectCalls(f)
    modifies fs
    ensures Direct(fs.kind, Trace(f.blocks, Ones(|f.blocks|)))
    ensures fs.View() == EvaluatedAll(old(fs.View()), fs.kind, Trace(f.blocks, Ones(|f.blocks|)))
    ensures fs.feat == old(fs.feat)
  {
    for b := 0 to |f.blocks|
      invariant Direct(fs.kind, Trace(f.blocks[..b], Ones(|f.blocks|)))
      invariant fs.View() == EvaluatedAll(old(fs.View()), fs.kind, Trace(f.blocks[..b], Ones(|f.blocks|)))
      invariant fs.feat == old(fs.feat)
    {
      ghost var done := Trace(f.blocks[..b], Ones(|f.blocks|));
      assert f.blocks[..b + 1][..b] == f.blocks[..b];
      assert Trace(f.blocks[..b + 1], Ones(|f.blocks|)) == done + Calls(f.blocks[b].instrs, 1);
      EvalBB(fs, f.blocks[b]);
      EvaluatedAllAppend(old(fs.View()), fs.kind, done, Calls(f.blocks[b].instrs, 1));
    }
    assert f.blocks[..|f.blocks|] == f.blocks;
  }

  /** The default pass on a full feature set counts every instruction of the function once. */
  lemma FeaturePassCountsInstructions(v: Counters, f: Function)
    ensures EvaluatedAll(v, Full, Trace(f.blocks, Ones(|f.blocks|))).instructionNum == v.instructionNum + |Instrs(f.blocks)|
  {
    TraceInstrs(f.blocks, Ones(|f.blocks|));
    FullTotals(v, Trace(f.blocks, Ones(|f.blocks|)));
  }

  // ---------------------------------------------------------------------------
  // Kofler13Pass (src/FeaturePass.cpp) and Kofler13Analysis
  // ---------------------------------------------------------------------------

  /**
   * Steps 1 and 2 over whole nests: each top-level loop's preorder list, in
   * turn, scales the blocks of each of its loops.
   */
  method NestMultipliers(f: Function, h: Heuristic) returns (m: seq<u32>)
    requires WellFormedLoops(f)
    ensures |m| == |f.blocks|
    ensures forall b | 0 <= b < |m| :: m[b] == Wrap32(Product(h, PreorderAll(f.loops), b))
  {
    m := InitialMultipliers(|f.blocks|);
    for i := 0 to |f.loops|
      invariant |m| == |f.blocks|
      invariant forall b | 0 <= b < |m| :: m[b] == Wrap32(Product(h, PreorderAll(f.loops[..i]), b))
    {
      PreorderAllSnoc(f.loops, i);
      PreorderAllPrefix(f.loops, i + 1);
      var nest := Preorder(f.loops[i]);
      var before := m;
      m := ScaleLoops(m, h, nest);
      forall b | 0 <= b < |m|
        ensures m[b] == Wrap32(Product(h, PreorderAll(f.loops[..i + 1]), b))
      {
        WrapMul(Product(h, PreorderAll(f.loops[..i]), b), Product(h, nest, b));
        ProductAppend(h, PreorderAll(f.loops[..i]), nest, b);
      }
    }
    assert f.loops[..|f.loops|] == f.loops;
  }

  /** What `Kofler13Pass` multiplies each block's instructions by. */
  function Kofler13PassMultipliers(f: Function): (r: seq<int>)
    ensures |r| == |f.blocks|
  {
    seq(|f.blocks|, b requires 0 <= b < |f.blocks| => ToInt32(Wrap32(Product(TripCountRule, PreorderAll(f.loops), b))))
  }

  /** Step 3: each block's instructions with the block's multiplier read as `int`. */
  method EvalScaled(fs: FeatureSet, f: Function, m: seq<u32>)
    requires (fs.kind != Full ==> NoIndirectCalls(f)) && |m| == |f.blocks|
    modifies fs
    ensures Direct(fs.kind, Trace(f.blocks, Signed(m)))
    ensures fs.View() == EvaluatedAll(old(fs.View()), fs.kind, Trace(f.blocks, Signed(m)))
    ensures fs.feat == old(fs.feat)
  {
    EvalBlocks(fs, f.blocks, Signed(m));
  }

  /**
   * `Kofler13Pass::eval_function`: nothing for a declaration; otherwise every
   * instruction once, with the product over the loops of every nest that
   * contain its block of the trip-count contribution.
   */
  method Kofler13PassEvalFunction(fs: FeatureSet, f: Function)
    requires (fs.kind != Full ==> NoIndirectCalls(f)) && WellFormedLoops(f)
    modifies fs
    ensures f.isDeclaration ==> fs.View() == old(fs.View())
    ensures !f.isDeclaration ==> (Direct(fs.kind, Trace(f.blocks, Kofler13PassMultipliers(f))) &&
      fs.View() == EvaluatedAll(old(fs.View()), fs.kind, Trace(f.blocks, Kofler13PassMultipliers(f))))
    ensures fs.feat == old(fs.feat)
  {
    if f.isDeclaration {
      return;
    }
    var m := NestMultipliers(f, TripCountRule);
    assert Signed(m) == Kofler13PassMultipliers(f);
    EvalScaled(fs, f, m);
  }

  /** A block outside every loop keeps the multiplier 1. */
  lemma Kofler13PassOutsideLoops(f: Function, b: nat)
    requires b < |f.blocks| && forall l | l in PreorderAll(f.loops) :: b !in l.blocks
    ensures Kofler13PassMultipliers(f)[b] == 1
  {
    ProductOutside(TripCountRule, PreorderAll(f.loops), b);
  }

  /** What `Kofler13Analysis::extract` multiplies each block's instructions by, as written. */
  function ExtractMultipliers(f: Function): (r: seq<int>)
    ensures |r| == |f.blocks|
  {
    seq(|f.blocks|, b requires 0 <= b < |f.blocks| => ToInt32(Wrap32(Product(FinalIVRule, f.loops, b) * Product(FinalIVRule, PreorderAll(f.loops), b))))
  }

  /** Steps 1 and 2 of `extract`: per top-level loop, its own contribution, then its whole preorder list. */
  method ExtractScaled(f: Function) returns (m: seq<u32>)
    requires WellFormedLoops(f)
    ensures |m| == |f.blocks|
    ensures forall b | 0 <= b < |m| ::
      m[b] == Wrap32(Product(FinalIVRule, f.loops, b) * Product(FinalIVRule, PreorderAll(f.loops), b))
  {
    m := InitialMultipliers(|f.blocks|);
    for i := 0 to |f.loops|
      invariant |m| == |f.blocks|
      invariant forall b | 0 <= b < |m| ::
        m[b] == Wrap32(Product(FinalIVRule, f.loops[..i], b) * Product(FinalIVRule, PreorderAll(f.loops[..i]), b))
    {
      PreorderAllSnoc(f.loops, i);
      PreorderAllPrefix(f.loops, i + 1);
      var loop1 := f.loops[i];
      assert loop1 in PreorderAll(f.loops[..i + 1]) by {
        assert Preorder(loop1)[0] == loop1;
      }
      var before := m;
      m := ScaleLoop(m, FinalIVRule, loop1);
      m := ScaleLoops(m, FinalIVRule, Preorder(loop1));
      forall b | 0 <= b < |m|
        ensures m[b] == Wrap32(Product(FinalIVRule, f.loops[..i + 1], b) * Product(FinalIVRule, PreorderAll(f.loops[..i + 1]), b))
      {
        var p := Product(FinalIVRule, f.loops[..i], b);
        var q := Product(FinalIVRule, PreorderAll(f.loops[..i]), b);
        var g := if b in loop1.blocks then LoopContribution(loop1) else 1;
        var n := Product(FinalIVRule, Preorder(loop1), b);
        ExtractArith(p, q, g, n);
        assert f.loops[..i + 1][..i] == f.loops[..i];
        assert Product(FinalIVRule, f.loops[..i + 1], b) == p * g;
        ProductAppend(FinalIVRule, PreorderAll(f.loops[..i]), Preorder(loop1), b);
      }
    }
    assert f.loops[..|f.loops|] == f.loops;
  }

  /** The 32-bit arithmetic of one top-level loop of `extract`. */
  lemma ExtractArith(p: int, q: int, g: int, n: int)
    ensures Wrap32(Wrap32(Wrap32(p * q) * g) * n) == Wrap32((p * g) * (q * n))
  {
    WrapMul(p * q, g);
    WrapMul(p * q * g, n);
    assert p * q * g * n == (p * g) * (q * n);
  }

  /**
   * `Kofler13Analysis::extract`, as written: each top-level loop scales its
   * blocks by its contribution, then every loop of its preorder list, which
   * starts with the top-level loop itself, scales its blocks again.
   */
  method Kofler13Extract(fs: FeatureSet, f: Function)
    requires (fs.kind != Full ==> NoIndirectCalls(f)) && WellFormedLoops(f)
    modifies fs
    ensures f.isDeclaration ==> fs.View() == old(fs.View())
    ensures !f.isDeclaration ==> (Direct(fs.kind, Trace(f.blocks, ExtractMultipliers(f))) &&
      fs.View() == EvaluatedAll(old(fs.View()), fs.kind, Trace(f.blocks, ExtractMultipliers(f))))
    ensures fs.feat == old(fs.feat)
  {
    if f.isDeclaration {
      return;
    }
    var m := ExtractScaled(f);
    assert Signed(m) == ExtractMultipliers(f);
    EvalScaled(fs, f, m);
  }

  /** What `extract` evidently means to multiply by: each enclosing loop's contribution once. */
  function IntendedExtractMultipliers(f: Function): (r: seq<int>)
    ensures |r| == |f.blocks|
  {
    seq(|f.blocks|, b requires 0 <= b < |f.blocks| => ToInt32(Wrap32(Product(FinalIVRule, PreorderAll(f.loops), b))))
  }

  /** `extract` with each loop of each nest applied once, as the preorder walk alone does. */
  method Kofler13ExtractIntended(fs: FeatureSet, f: Function)
    requires (fs.kind != Full ==> NoIndirectCalls(f)) && WellFormedLoops(f)
    modifies fs
    ensures f.isDeclaration ==> fs.View() == old(fs.View())
    ensures !f.isDeclaration ==> (Direct(fs.kind, Trace(f.blocks, IntendedExtractMultipliers(f))) &&
      fs.View() == EvaluatedAll(old(fs.View()), fs.kind, Trace(f.blocks, IntendedExtractMultipliers(f))))
    ensures fs.feat == old(fs.feat)
  {
    if f.isDeclaration {
      return;
    }
    var m := NestMultipliers(f, FinalIVRule);
    assert Signed(m) == IntendedExtractMultipliers(f);
    EvalScaled(fs, f, m);
  }

  /**
   * A single loop without sub-loops and its block `b`: as written, `extract`
   * multiplies by the loop's contribution squared; the intended multiplier
   * is the contribution itself.
   */
  lemma ExtractSingleLoop(f: Function, b: nat)
    requires |f.loops| == 1 && f.loops[0].subLoops == [] && b < |f.blocks| && b in f.loops[0].blocks
    ensures ExtractMultipliers(f)[b] == ToInt32(Wrap32(LoopContribution(f.loops[0]) * LoopContribution(f.loops[0])))
    ensures IntendedExtractMultipliers(f)[b] == ToInt32(Wrap32(LoopContribution(f.loops[0])))
  {
    var l := f.loops[0];
    assert f.loops == [l];
    assert [l][..0] == [];
    assert Product(FinalIVRule, [l], b) == LoopContribution(l);
    assert PreorderAll(f.loops) == [l] by {
      assert PreorderAll(f.loops[1..]) == [];
      assert Preorder(l) == [l] + PreorderAll([]);
    }
    assert [l][..0] == [];
  }

  /** A loop that runs 8 times: `extract` counts its body 64 times, the intent is 8. */
  lemma ExtractCountsTopLevelTwice()
    ensures ExtractMultipliers(EightLoopKernel())[0] == 64
    ensures IntendedExtractMultipliers(EightLoopKernel())[0] == 8
  {
    ExtractSingleLoop(EightLoopKernel(), 0);
  }

  /** A kernel of one block inside one canonical loop with final induction value 8. */
  function EightLoopKernel(): Function {
    var l := Loop(0, 1, [0], 0, CouldNotCompute, None, true, Some(ConstInt(8, 32)), []);
    Function("kernel", false, true, 0, [], [Block([], [])], [l])
  }

  // ---------------------------------------------------------------------------
  // The legacy passes (src/feature_pass.cpp, src/feature_eval.cpp)
  // ---------------------------------------------------------------------------

  /** The legacy multipliers: ×100 for each top-level loop containing the block. */
  function Unroll100Multipliers(f: Function): (r: seq<int>)
    ensures |r| == |f.blocks|
  {
    seq(|f.blocks|, b requires 0 <= b < |f.blocks| => ToInt32(Wrap32(Product(Unroll100, f.loops, b))))
  }

  /** Steps 1 and 2 of the legacy passes: only the top-level loops, each scaling its blocks by 100. */
  method Unroll100Scaled(f: Function) returns (m: seq<int>)
    requires forall l | l in f.loops :: WellFormedLoop(l, |f.blocks|)
    ensures m == Unroll100Multipliers(f)
  {
    var w := InitialMultipliers(|f.blocks|);
    w := ScaleLoops(w, Unroll100, f.loops);
    m := Signed(w);
  }

  /** The calls for every block with the block's multiplier. */
  method TraceScaled(blocks: seq<Block>, ms: seq<int>) returns (calls: seq<Call>)
    requires |blocks| <= |ms|
    ensures calls == Trace(blocks, ms)
  {
    calls := [];
    for b := 0 to |blocks|
      invariant calls == Trace(blocks[..b], ms)
    {
      assert blocks[..b + 1][..b] == blocks[..b];
      var mult := ms[b];
      for k := 0 to |blocks[b].instrs|
        invariant calls == Trace(blocks[..b], ms) + Calls(blocks[b].instrs[..k], mult)
      {
        assert Calls(blocks[b].instrs[..k + 1], mult) == Calls(blocks[b].instrs[..k], mult) + [Call(blocks[b].instrs[k], mult)];
        calls := calls + [Call(blocks[b].instrs[k], mult)];
      }
      assert blocks[b].instrs[..|blocks[b].instrs|] == blocks[b].instrs;
    }
    assert blocks[..|blocks|] == blocks;
  }

  /** `feature_pass::eval_function`: the calls `eval(i)` it makes, each with the default contribution 1. */
  method LegacyPassEvalFunction(f: Function) returns (calls: seq<Call>)
    ensures calls == Trace(f.blocks, Ones(|f.blocks|))
  {
    calls := TraceScaled(f.blocks, Ones(|f.blocks|));
  }

  /** `kofler13_pass::eval_function`: nothing for a declaration, else each instruction with its ×100 multiplier. */
  method LegacyKofler13Pass(f: Function) returns (calls: seq<Call>)
    requires forall l | l in f.loops :: WellFormedLoop(l, |f.blocks|)
    ensures calls == if f.isDeclaration then [] else Trace(f.blocks, Unroll100Multipliers(f))
  {
    if f.isDeclaration {
      return [];
    }
    var m := Unroll100Scaled(f);
    calls := TraceScaled(f.blocks, m);
  }

  /** `kofler13_eval::eval_function`: the same ×100 calls, declarations included. */
  method LegacyKofler13Eval(f: Function) returns (calls: seq<Call>)
    requires forall l | l in f.loops :: WellFormedLoop(l, |f.blocks|)
    ensures calls == Trace(f.blocks, Unroll100Multipliers(f))
  {
    var m := Unroll100Scaled(f);
    calls := TraceScaled(f.blocks, m);
  }

  /**
   * The ×100 heuristic: a block's multiplier is 100 to the number of
   * top-level loops containing it, whatever the nesting or trip counts, as a
   * 32-bit `int`; a block outside every loop has multiplier 1.
   */
  lemma Unroll100Multiplier(f: Function, b: nat)
    requires b < |f.blocks|
    ensures Unroll100Multipliers(f)[b] == ToInt32(Wrap32(Power(100, Enclosing(f.loops, b))))
    ensures Enclosing(f.loops, b) == 0 ==> Unroll100Multipliers(f)[b] == 1
  {
    Unroll100Product(f.loops, b);
  }
}
