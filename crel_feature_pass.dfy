/**
 * `crel_feature_pass` and `poly_crel_pass`: the passes that fill a
 * `crel_feature_set`. The plain pass evaluates every instruction of a
 * function once; the cost-relation pass builds, for one kernel, the
 * per-block feature polynomials, multiplies them by the loop multipliers
 * and runs the backward max-join analysis whose entry-block result is the
 * kernel's feature.
 *
 * Each step is specified by a function on kernel states (`KernelView`);
 * the methods update the stored kernel object in place and are proved to
 * produce exactly that state.
 */
module CrelFeaturePass {
  import opened Rationals
  import opened Mpoly
  import opened Ir
  import opened CrelKernel
  import opened CrelFeatureSet
  import opened Evaluator
  import opened Dataflow

  // ---------------------------------------------------------------------------
  // Step 1: per-block feature accumulation
  // ---------------------------------------------------------------------------

  /** `bbFeatures[bb][f] = p`: both missing levels are created on the way. */
  function SetFeature(bbf: FeatureMap, bb: nat, f: string, p: Poly): FeatureMap {
    bbf[bb := Row(bbf, bb)[f := p]]
  }

  /** Setting one entry changes that entry and no other. */
  lemma SetFeatureEffect(bbf: FeatureMap, bb: nat, f: string, p: Poly, bb': nat, f': string)
    ensures FeatureOf(SetFeature(bbf, bb, f, p), bb', f') == if bb' == bb && f' == f then p else FeatureOf(bbf, bb', f')
    ensures SetFeature(bbf, bb, f, p).Keys == bbf.Keys + {bb}
  {
  }

  /** The first inner loop of step 1: each listed feature of block `bb` is set to the zero polynomial. */
  function ResetRow(bbf: FeatureMap, bb: nat, names: seq<string>): FeatureMap
  {
    if names == [] then bbf
    else SetFeature(ResetRow(bbf, bb, names[..|names| - 1]), bb, names[|names| - 1], map[])
  }

  /** A reset zeroes exactly the listed features of its block, and adds only that block. */
  lemma {:induction false} ResetRowEffect(bbf: FeatureMap, bb: nat, names: seq<string>, bb': nat, f': string)
    ensures FeatureOf(ResetRow(bbf, bb, names), bb', f') ==
            if bb' == bb && f' in names then map[] else FeatureOf(bbf, bb', f')
    ensures ResetRow(bbf, bb, names).Keys == bbf.Keys + (if names == [] then {} else {bb})
  {
    if names != [] {
      var init := names[..|names| - 1];
      ResetRowEffect(bbf, bb, init, bb', f');
      SetFeatureEffect(ResetRow(bbf, bb, init), bb, names[|names| - 1], map[], bb', f');
      assert f' in names <==> f' in init || f' == names[|names| - 1] by {
        assert names == init + [names[|names| - 1]];
      }
    }
  }

  lemma {:induction false} ResetRowOver(bbf: FeatureMap, bb: nat, names: seq<string>, n: nat)
    requires FeatureMapOver(bbf, n)
    ensures FeatureMapOver(ResetRow(bbf, bb, names), n)
  {
    if names != [] {
      ResetRowOver(bbf, bb, names[..|names| - 1], n);
    }
  }

  /** Every instruction of every block can be classified. */
  predicate AllClassifiable(variant: Variant, blocks: seq<Block>) {
    forall b, k | 0 <= b < |blocks| && 0 <= k < |blocks[b].instrs| :: Classifiable(variant, blocks[b].instrs[k])
  }

  predicate InstrsClassifiable(variant: Variant, instrs: seq<Instruction>) {
    forall k | 0 <= k < |instrs| :: Classifiable(variant, instrs[k])
  }

  /** The classifier's answer for each instruction, in order (`""` for one it skips). */
  function Labels(variant: Variant, instrs: seq<Instruction>): (r: seq<string>)
    requires InstrsClassifiable(variant, instrs)
    ensures |r| == |instrs| && forall k | 0 <= k < |instrs| :: r[k] == EvalInstruction(variant, instrs[k])
  {
    seq(|instrs|, k requires 0 <= k < |instrs| => EvalInstruction(variant, instrs[k]))
  }

  /** `featureSet->eval(inst, 1)` on the state of the instruction's kernel, for the classifier's answer `answer`. */
  function EvalStep(v: KernelView, answer: string, bb: nat): KernelView
  {
    if answer == "" then v else AddToView(v, bb, answer, Const(|v.runtimeVars|, IntQ(1)))
  }

  /** The instructions of block `bb`, evaluated in order, as the classifier's answers. */
  function EvalLabels(v: KernelView, labels: seq<string>, bb: nat): KernelView
  {
    if labels == [] then v else EvalStep(EvalLabels(v, labels[..|labels| - 1], bb), labels[|labels| - 1], bb)
  }

  lemma EvalLabelsSnoc(v: KernelView, labels: seq<string>, i: nat, bb: nat)
    requires i < |labels|
    ensures EvalLabels(v, labels[..i + 1], bb) == EvalStep(EvalLabels(v, labels[..i], bb), labels[i], bb)
  {
    assert labels[..i + 1][..i] == labels[..i];
  }

  /** Adding two constants gives the constant of their sum. */
  lemma PlusConst(n: nat, a: int, b: int)
    ensures Plus(Const(n, IntQ(a)), Const(n, IntQ(b))) == Const(n, IntQ(a + b))
  {
    CoefExt(Plus(Const(n, IntQ(a)), Const(n, IntQ(b))), Const(n, IntQ(a + b)));
  }

  /**
   * Evaluating the instructions of block `bb` touches only that block's
   * entries: the variables, the multipliers and the final features stay,
   * and `instructionNum` grows by the number of classified instructions.
   */
  lemma {:induction false} EvalLabelsFrame(v: KernelView, labels: seq<string>, bb: nat, bb': nat, f': string)
    ensures var r := EvalLabels(v, labels, bb);
            r.name == v.name && r.runtimeVars == v.runtimeVars &&
            r.loopMultipliers == v.loopMultipliers && r.features == v.features &&
            r.instructionNum == v.instructionNum + |labels| - Occurrences(labels, "") &&
            (forall x | x in r.bbFeatures :: x in v.bbFeatures || x == bb) &&
            (forall x | x in v.bbFeatures :: x in r.bbFeatures) &&
            (bb' != bb || f' == "" ==> FeatureOf(r.bbFeatures, bb', f') == FeatureOf(v.bbFeatures, bb', f'))
  {
    if labels != [] {
      var init := labels[..|labels| - 1];
      var last := labels[|labels| - 1];
      assert labels == init + [last];
      EvalLabelsFrame(v, init, bb, bb', f');
      if last != "" {
        AddFeatureEffect(EvalLabels(v, init, bb).bbFeatures, bb, last, Const(|v.runtimeVars|, IntQ(1)), bb', f');
      }
    }
  }

  /**
   * Evaluating the instructions of block `bb` counts: a feature of that
   * block that held the constant c afterwards holds c plus the number of
   * instructions classified as it.
   */
  lemma {:induction false} EvalLabelsCount(v: KernelView, labels: seq<string>, bb: nat, f': string, n: nat, c: nat)
    requires n == |v.runtimeVars|
    requires f' != "" && FeatureOf(v.bbFeatures, bb, f') == Const(n, IntQ(c))
    ensures FeatureOf(EvalLabels(v, labels, bb).bbFeatures, bb, f') == Const(n, IntQ(c + Occurrences(labels, f')))
  {
    if labels != [] {
      var init := labels[..|labels| - 1];
      var last := labels[|labels| - 1];
      var prev := EvalLabels(v, init, bb);
      EvalLabelsCount(v, init, bb, f', n, c);
      EvalLabelsFrame(v, init, bb, bb, f');
      EvalStepCount(prev, last, bb, f', c + Occurrences(init, f'));
      assert EvalLabels(v, labels, bb) == EvalStep(prev, last, bb);
      assert Occurrences(labels, f') == Occurrences(init, f') + if last == f' then 1 else 0;
    }
  }

  /** One evaluation adds one to the constant of its own feature and leaves the others. */
  lemma EvalStepCount(v: KernelView, answer: string, bb: nat, f': string, c: int)
    requires f' != "" && FeatureOf(v.bbFeatures, bb, f') == Const(|v.runtimeVars|, IntQ(c))
    ensures FeatureOf(EvalStep(v, answer, bb).bbFeatures, bb, f') ==
            Const(|v.runtimeVars|, IntQ(c + if answer == f' then 1 else 0))
  {
    if answer != "" {
      AddFeatureEffect(v.bbFeatures, bb, answer, Const(|v.runtimeVars|, IntQ(1)), bb, f');
      if answer == f' {
        PlusConst(|v.runtimeVars|, c, 1);
      }
    }
  }

  lemma {:induction false} EvalLabelsOver(v: KernelView, labels: seq<string>, bb: nat)
    requires ViewValid(v)
    ensures ViewValid(EvalLabels(v, labels, bb))
  {
    if labels != [] {
      var init := labels[..|labels| - 1];
      EvalLabelsOver(v, init, bb);
      EvalLabelsFrame(v, init, bb, 0, "");
      if labels[|labels| - 1] != "" {
        AddFeatureOver(EvalLabels(v, init, bb).bbFeatures, bb, labels[|labels| - 1], Const(|v.runtimeVars|, IntQ(1)), |v.runtimeVars|);
      }
    }
  }

  /** The classifier's answers for each block of `blocks`. */
  function BlockLabels(variant: Variant, blocks: seq<Block>): (r: seq<seq<string>>)
    requires AllClassifiable(variant, blocks)
    ensures |r| == |blocks|
    ensures forall b | 0 <= b < |blocks| :: InstrsClassifiable(variant, blocks[b].instrs) && r[b] == Labels(variant, blocks[b].instrs)
  {
    seq(|blocks|, b requires 0 <= b < |blocks| =>
      assert InstrsClassifiable(variant, blocks[b].instrs);
      Labels(variant, blocks[b].instrs))
  }

  /**
   * Step 1 over the blocks, given as their instructions' classifier answers,
   * in function order: the `names` features of each block are reset to
   * zero, then its instructions are evaluated. With no names this is the
   * plain pass's `eval_function`.
   */
  function EvalBlocks(v: KernelView, labels: seq<seq<string>>, names: seq<string>): KernelView
  {
    if labels == [] then v
    else
      var b := |labels| - 1;
      var prev := EvalBlocks(v, labels[..b], names);
      EvalLabels(prev.(bbFeatures := ResetRow(prev.bbFeatures, b, names)), labels[b], b)
  }

  lemma EvalBlocksSnoc(v: KernelView, labels: seq<seq<string>>, names: seq<string>, b: nat)
    requires b < |labels|
    ensures var prev := EvalBlocks(v, labels[..b], names);
            EvalBlocks(v, labels[..b + 1], names) ==
            EvalLabels(prev.(bbFeatures := ResetRow(prev.bbFeatures, b, names)), labels[b], b)
  {
    assert labels[..b + 1][..b] == labels[..b];
  }

  /** The number of classified instructions. */
  function Classified(labels: seq<seq<string>>): nat
  {
    if labels == [] then 0
    else Classified(labels[..|labels| - 1]) + |labels[|labels| - 1]| - Occurrences(labels[|labels| - 1], "")
  }

  /**
   * Step 1 adds only the blocks of the function (all of them when there is
   * something to reset), leaves every entry of the other blocks, the
   * variables, the multipliers and the final features alone, and grows
   * `instructionNum` by the number of classified instructions.
   */
  lemma {:induction false} EvalBlocksFrame(v: KernelView, labels: seq<seq<string>>, names: seq<string>, b: nat, f': string)
    ensures var r := EvalBlocks(v, labels, names);
            r.name == v.name && r.runtimeVars == v.runtimeVars &&
            r.loopMultipliers == v.loopMultipliers && r.features == v.features &&
            r.instructionNum == v.instructionNum + Classified(labels) &&
            (forall x | x in r.bbFeatures :: x in v.bbFeatures || x < |labels|) &&
            (names != [] ==> forall x | 0 <= x < |labels| :: x in r.bbFeatures) &&
            (b >= |labels| ==> FeatureOf(r.bbFeatures, b, f') == FeatureOf(v.bbFeatures, b, f'))
  {
    if labels != [] {
      var last := |labels| - 1;
      var init := labels[..last];
      EvalBlocksFrame(v, init, names, b, f');
      var prev := EvalBlocks(v, init, names);
      var reset := prev.(bbFeatures := ResetRow(prev.bbFeatures, last, names));
      assert EvalBlocks(v, labels, names) == EvalLabels(reset, labels[last], last);
      assert Classified(labels) == Classified(init) + |labels[last]| - Occurrences(labels[last], "");
      ResetRowEffect(prev.bbFeatures, last, names, b, f');
      EvalLabelsFrame(reset, labels[last], last, b, f');
      if names != [] {
        forall x | 0 <= x < |labels|
          ensures x in EvalBlocks(v, labels, names).bbFeatures
        {
          EvalBlocksFrame(v, init, names, x, f');
          ResetRowEffect(prev.bbFeatures, last, names, x, f');
          EvalLabelsFrame(reset, labels[last], last, x, "");
        }
      }
    }
  }

  /**
   * After step 1, feature f' of block b counts the instructions of b
   * classified as f', on top of c: zero when f' is reset, the constant the
   * block held before otherwise.
   */
  lemma {:induction false} EvalBlocksCount(v: KernelView, labels: seq<seq<string>>, names: seq<string>,
                                           b: nat, f': string, c: nat)
    requires b < |labels| && f' != ""
    requires f' in names ==> c == 0
    requires f' !in names ==> FeatureOf(v.bbFeatures, b, f') == Const(|v.runtimeVars|, IntQ(c))
    ensures FeatureOf(EvalBlocks(v, labels, names).bbFeatures, b, f') ==
            Const(|v.runtimeVars|, IntQ(c + Occurrences(labels[b], f')))
    decreases |labels|, 1
  {
    if b == |labels| - 1 {
      EvalBlocksCountLast(v, labels, names, b, f', c);
    } else {
      EvalBlocksCountEarlier(v, labels, names, b, f', c);
    }
  }

  /** A block before the last: the last block's step leaves its feature alone. */
  lemma {:induction false} EvalBlocksCountEarlier(v: KernelView, labels: seq<seq<string>>, names: seq<string>,
                                                  b: nat, f': string, c: nat)
    requires b < |labels| - 1 && f' != ""
    requires f' in names ==> c == 0
    requires f' !in names ==> FeatureOf(v.bbFeatures, b, f') == Const(|v.runtimeVars|, IntQ(c))
    ensures FeatureOf(EvalBlocks(v, labels, names).bbFeatures, b, f') ==
            Const(|v.runtimeVars|, IntQ(c + Occurrences(labels[b], f')))
    decreases |labels|, 0
  {
    var init := labels[..|labels| - 1];
    EvalBlocksCount(v, init, names, b, f', c);
    assert init[b] == labels[b];
    EvalBlocksKeep(v, labels, names, b, f', Const(|v.runtimeVars|, IntQ(c + Occurrences(labels[b], f'))));
  }

  /** The last block's feature counts from c. */
  lemma {:induction false} EvalBlocksCountLast(v: KernelView, labels: seq<seq<string>>, names: seq<string>,
                                               last: nat, f': string, c: nat)
    requires last == |labels| - 1 && f' != ""
    requires f' in names ==> c == 0
    requires f' !in names ==> FeatureOf(v.bbFeatures, last, f') == Const(|v.runtimeVars|, IntQ(c))
    ensures FeatureOf(EvalBlocks(v, labels, names).bbFeatures, last, f') ==
            Const(|v.runtimeVars|, IntQ(c + Occurrences(labels[last], f')))
  {
    var reset := EvalBlocksReset(v, labels, names, last);
    EvalBlocksLast(v, labels, names, last);
    EvalBlocksResetStart(v, labels, names, last, f', c);
    EvalLabelsCount(reset, labels[last], last, f', |v.runtimeVars|, c);
  }

  /** The last block is evaluated on the state `EvalBlocksReset` describes. */
  lemma EvalBlocksLast(v: KernelView, labels: seq<seq<string>>, names: seq<string>, last: nat)
    requires last == |labels| - 1
    ensures EvalBlocks(v, labels, names) == EvalLabels(EvalBlocksReset(v, labels, names, last), labels[last], last)
  {
  }

  /** The state before block `last` is evaluated: the earlier blocks done, and its row reset. */
  function EvalBlocksReset(v: KernelView, labels: seq<seq<string>>, names: seq<string>, last: nat): KernelView
    requires last < |labels|
  {
    var prev := EvalBlocks(v, labels[..last], names);
    prev.(bbFeatures := ResetRow(prev.bbFeatures, last, names))
  }

  /** Before block `last` is evaluated, its feature f' holds c: zero when reset, its old value otherwise. */
  lemma EvalBlocksResetStart(v: KernelView, labels: seq<seq<string>>, names: seq<string>, last: nat, f': string, c: nat)
    requires last < |labels|
    requires f' in names ==> c == 0
    requires f' !in names ==> FeatureOf(v.bbFeatures, last, f') == Const(|v.runtimeVars|, IntQ(c))
    ensures var reset := EvalBlocksReset(v, labels, names, last);
            |reset.runtimeVars| == |v.runtimeVars| &&
            FeatureOf(reset.bbFeatures, last, f') == Const(|v.runtimeVars|, IntQ(c))
  {
    var prev := EvalBlocks(v, labels[..last], names);
    EvalBlocksFrame(v, labels[..last], names, last, f');
    ResetRowEffect(prev.bbFeatures, last, names, last, f');
    assert Const(|v.runtimeVars|, IntQ(0)) == map[];
  }

  /** Evaluating the last block leaves the earlier blocks' features alone. */
  lemma {:induction false} EvalBlocksKeep(v: KernelView, labels: seq<seq<string>>, names: seq<string>, b: nat, f': string, p: Poly)
    requires b < |labels| - 1
    requires FeatureOf(EvalBlocks(v, labels[..|labels| - 1], names).bbFeatures, b, f') == p
    ensures FeatureOf(EvalBlocks(v, labels, names).bbFeatures, b, f') == p
  {
    var last := |labels| - 1;
    var prev := EvalBlocks(v, labels[..last], names);
    var reset := prev.(bbFeatures := ResetRow(prev.bbFeatures, last, names));
    assert EvalBlocks(v, labels, names) == EvalLabels(reset, labels[last], last);
    ResetRowEffect(prev.bbFeatures, last, names, b, f');
    EvalLabelsFrame(reset, labels[last], last, b, f');
  }

  lemma {:induction false} EvalBlocksOver(v: KernelView, labels: seq<seq<string>>, names: seq<string>)
    requires ViewValid(v)
    ensures ViewValid(EvalBlocks(v, labels, names))
  {
    if labels != [] {
      var last := |labels| - 1;
      var prev := EvalBlocks(v, labels[..last], names);
      var reset := prev.(bbFeatures := ResetRow(prev.bbFeatures, last, names));
      assert EvalBlocks(v, labels, names) == EvalLabels(reset, labels[last], last);
      assert ViewValid(reset) by {
        EvalBlocksOver(v, labels[..last], names);
        ResetRowOver(prev.bbFeatures, last, names, |prev.runtimeVars|);
      }
      EvalLabelsOver(reset, labels[last], last);
    }
  }


  /** The first inner loop of step 1: the listed features of block `bb` are reset to zero. */
  method ResetFeatures(k: CrelKernel, bb: nat, names: seq<string>)
    requires k.Valid()
    modifies k
    ensures k.Valid()
    ensures k.View() == old(k.View()).(bbFeatures := ResetRow(old(k.bbFeatures), bb, names))
  {
    var i := 0;
    while i < |names|
      invariant 0 <= i <= |names|
      invariant k.Valid()
      invariant k.View() == old(k.View()).(bbFeatures := ResetRow(old(k.bbFeatures), bb, names[..i]))
    {
      assert names[..i + 1][..i] == names[..i];
      ResetRowOver(old(k.bbFeatures), bb, names[..i + 1], |k.runtimeVars|);
      k.bbFeatures := SetFeature(k.bbFeatures, bb, names[i], map[]);
      i := i + 1;
    }
    assert names[..i] == names;
  }

  /** `featureSet->eval(inst, 1)` for an instruction of a function whose kernel is already stored. */
  method EvalStored(fs: CrelFeatureSet, name: string, k: CrelKernel, bb: nat, inst: Instruction)
    requires fs.Valid() && name in fs.kernels && fs.kernels[name] == k
    requires Classifiable(fs.variant, inst)
    modifies fs, k
    ensures fs.Valid() && fs.kernels == old(fs.kernels)
    ensures k.View() == EvalStep(old(k.View()), EvalInstruction(fs.variant, inst), bb)
  {
    ghost var before := k.View();
    assert fs.Entry(name) == before;
    var feature := fs.Eval(inst, name, bb, 1);
  }

  /**
   * The instruction loop of step 1 for block `bb` of the function `name`:
   * `featureSet->eval(inst, 1)` on each instruction, which adds to the
   * kernel stored under the function's name.
   */
  method EvalBlock(fs: CrelFeatureSet, name: string, k: CrelKernel, bb: nat, instrs: seq<Instruction>)
    requires fs.Valid() && name in fs.kernels && fs.kernels[name] == k
    requires InstrsClassifiable(fs.variant, instrs)
    modifies fs, k
    ensures fs.Valid() && fs.kernels == old(fs.kernels)
    ensures k.View() == EvalLabels(old(k.View()), Labels(fs.variant, instrs), bb)
  {
    var labels := Labels(fs.variant, instrs);
    var i := 0;
    while i < |instrs|
      invariant 0 <= i <= |instrs|
      invariant fs.Valid() && fs.kernels == old(fs.kernels)
      invariant k.View() == EvalLabels(old(k.View()), labels[..i], bb)
    {
      EvalLabelsSnoc(old(k.View()), labels, i, bb);
      EvalStored(fs, name, k, bb, instrs[i]);
      i := i + 1;
    }
    assert labels[..i] == labels;
  }

  /**
   * Step 1 of `poly_crel_pass::eval_function`: for each block in order,
   * its vocabulary features are reset to zero and its instructions are
   * evaluated with contribution 1.
   */
  method AccumulateBlocks(fs: CrelFeatureSet, name: string, k: CrelKernel, blocks: seq<Block>)
    requires fs.Valid() && name in fs.kernels && fs.kernels[name] == k
    requires AllClassifiable(fs.variant, blocks)
    modifies fs, k
    ensures fs.Valid() && fs.kernels == old(fs.kernels)
    ensures k.View() == EvalBlocks(old(k.View()), BlockLabels(fs.variant, blocks), fs.featNames)
  {
    ghost var labels := BlockLabels(fs.variant, blocks);
    var b := 0;
    while b < |blocks|
      invariant 0 <= b <= |blocks|
      invariant fs.Valid() && fs.kernels == old(fs.kernels)
      invariant k.View() == EvalBlocks(old(k.View()), labels[..b], fs.featNames)
    {
      EvalBlocksSnoc(old(k.View()), labels, fs.featNames, b);
      AccumulateBlock(fs, name, k, b, blocks[b].instrs);
      b := b + 1;
    }
    assert labels[..b] == labels;
  }

  /** The body of step 1 for one block: reset its features, then evaluate its instructions. */
  method AccumulateBlock(fs: CrelFeatureSet, name: string, k: CrelKernel, bb: nat, instrs: seq<Instruction>)
    requires fs.Valid() && name in fs.kernels && fs.kernels[name] == k
    requires InstrsClassifiable(fs.variant, instrs)
    modifies fs, k
    ensures fs.Valid() && fs.kernels == old(fs.kernels)
    ensures k.View() == EvalLabels(old(k.View()).(bbFeatures := ResetRow(old(k.bbFeatures), bb, fs.featNames)),
                                   Labels(fs.variant, instrs), bb)
  {
    ResetFeatures(k, bb, fs.featNames);
    assert fs.Valid();
    EvalBlock(fs, name, k, bb, instrs);
  }

  // ---------------------------------------------------------------------------
  // Step 2: loop multipliers
  // ---------------------------------------------------------------------------

  /**
   * What step 2 needs of a loop: `getSmallConstantTripCount` answers an
   * `unsigned`, and a loop without a constant trip count has a
   * backedge-taken count the evaluator can translate.
   */
  predicate LoopReady(vars: seq<RuntimeVar>, l: Loop, flint: Oracle)
    requires SoundOracle(flint, |vars|)
  {
    l.tripCount < 0x1_0000_0000 && (l.tripCount == 0 ==> EvalScev(vars, map[], l.backedge, flint).Some?)
  }

  /**
   * The multiplier of one loop: its constant trip count when it has one,
   * otherwise the evaluation of its backedge-taken count from a zero
   * accumulator.
   */
  function Multiplier(vars: seq<RuntimeVar>, l: Loop, flint: Oracle): (r: Poly)
    requires SoundOracle(flint, |vars|) && LoopReady(vars, l, flint)
    ensures WellFormed(r, |vars|)
    ensures l.tripCount != 0 ==> IsConst(r) && ConstValue(r, |vars|) == l.tripCount as real
  {
    if l.tripCount != 0 then Const(|vars|, IntQ(l.tripCount))
    else EvalScev(vars, map[], l.backedge, flint).value.0
  }

  /**
   * A loop without a constant trip count whose backedge-taken count is an
   * AddRec, a kind the evaluator does not know, or a min/max of constants
   * gets the zero polynomial as its multiplier: the evaluation hands back
   * the empty polynomial it started from.
   */
  lemma ZeroMultiplier(vars: seq<RuntimeVar>, l: Loop, flint: Oracle)
    requires SoundOracle(flint, |vars|) && LoopReady(vars, l, flint) && l.tripCount == 0
    requires l.backedge.AddRec? || l.backedge.OtherScev? ||
             (l.backedge.MinMax? && |l.backedge.ops| > 1 && forall k | 0 <= k < |l.backedge.ops| :: l.backedge.ops[k].ScConstant?)
    ensures Multiplier(vars, l, flint) == map[]
  {
    EvalScevReturnsAccumulator(vars, map[], l.backedge, flint);
  }

  /** The multipliers of `loops`, in order. */
  function MultiplierList(vars: seq<RuntimeVar>, loops: seq<Loop>, flint: Oracle): (r: seq<Poly>)
    requires SoundOracle(flint, |vars|) && forall l | l in loops :: LoopReady(vars, l, flint)
    ensures |r| == |loops| && forall j | 0 <= j < |loops| :: r[j] == Multiplier(vars, loops[j], flint)
  {
    seq(|loops|, j requires 0 <= j < |loops| => Multiplier(vars, loops[j], flint))
  }

  /** The map after `lm[loops[j]] = ms[j]` for each j in order. */
  function SetEach(lm: map<nat, Poly>, loops: seq<Loop>, ms: seq<Poly>): map<nat, Poly>
    requires |ms| == |loops|
  {
    if loops == [] then lm
    else SetEach(lm, loops[..|loops| - 1], ms[..|ms| - 1])[loops[|loops| - 1].id := ms[|ms| - 1]]
  }

  /** Step 2 on the multiplier map: each loop, in order, gets its multiplier. */
  function Multipliers(lm: map<nat, Poly>, loops: seq<Loop>, vars: seq<RuntimeVar>, flint: Oracle): map<nat, Poly>
    requires SoundOracle(flint, |vars|) && forall l | l in loops :: LoopReady(vars, l, flint)
  {
    SetEach(lm, loops, MultiplierList(vars, loops, flint))
  }

  /** Distinct loops: no two loops of the sequence share an id. */
  predicate DistinctIds(loops: seq<Loop>) {
    forall i, j | 0 <= i < j < |loops| :: loops[i].id != loops[j].id
  }

  function Ids(loops: seq<Loop>): set<nat> {
    set l | l in loops :: l.id
  }

  /** With distinct loops, each loop's entry is its own value and the other entries stay. */
  lemma SetEachEffect(lm: map<nat, Poly>, loops: seq<Loop>, ms: seq<Poly>)
    requires |ms| == |loops| && DistinctIds(loops)
    ensures SetEach(lm, loops, ms).Keys == lm.Keys + Ids(loops)
    ensures forall j | 0 <= j < |loops| :: SetEach(lm, loops, ms)[loops[j].id] == ms[j]
    ensures forall x | x in lm && x !in Ids(loops) :: SetEach(lm, loops, ms)[x] == lm[x]
  {
    SetEachKeys(lm, loops, ms);
    forall j | 0 <= j < |loops|
      ensures SetEach(lm, loops, ms)[loops[j].id] == ms[j]
    {
      SetEachAt(lm, loops, ms, j);
    }
    forall x | x in lm && x !in Ids(loops)
      ensures SetEach(lm, loops, ms)[x] == lm[x]
    {
      SetEachOther(lm, loops, ms, x);
    }
  }

  lemma {:induction false} SetEachKeys(lm: map<nat, Poly>, loops: seq<Loop>, ms: seq<Poly>)
    requires |ms| == |loops|
    ensures SetEach(lm, loops, ms).Keys == lm.Keys + Ids(loops)
  {
    if loops != [] {
      var init := loops[..|loops| - 1];
      SetEachKeys(lm, init, ms[..|ms| - 1]);
      assert loops == init + [loops[|loops| - 1]];
      assert Ids(loops) == Ids(init) + {loops[|loops| - 1].id};
    }
  }

  lemma {:induction false} SetEachAt(lm: map<nat, Poly>, loops: seq<Loop>, ms: seq<Poly>, j: nat)
    requires |ms| == |loops| && DistinctIds(loops) && j < |loops|
    ensures loops[j].id in SetEach(lm, loops, ms) && SetEach(lm, loops, ms)[loops[j].id] == ms[j]
  {
    var last := |loops| - 1;
    if j < last {
      var init := loops[..last];
      assert DistinctIds(init) by {
        forall a, b | 0 <= a < b < |init| ensures init[a].id != init[b].id {
          assert init[a] == loops[a] && init[b] == loops[b];
        }
      }
      SetEachAt(lm, init, ms[..last], j);
      assert init[j] == loops[j] && ms[..last][j] == ms[j];
      assert loops[j].id != loops[last].id;
    }
  }

  lemma {:induction false} SetEachOther(lm: map<nat, Poly>, loops: seq<Loop>, ms: seq<Poly>, x: nat)
    requires |ms| == |loops| && x in lm && x !in Ids(loops)
    ensures x in SetEach(lm, loops, ms) && SetEach(lm, loops, ms)[x] == lm[x]
  {
    if loops != [] {
      var init := loops[..|loops| - 1];
      assert loops[|loops| - 1] in loops;
      assert x !in Ids(init) by {
        assert forall l | l in init :: l in loops;
      }
      SetEachOther(lm, init, ms[..|ms| - 1], x);
    }
  }

  /**
   * After step 2 every loop maps to its own multiplier, and every other
   * entry of the map is as it was.
   */
  lemma MultipliersEffect(lm: map<nat, Poly>, loops: seq<Loop>, vars: seq<RuntimeVar>, flint: Oracle)
    requires SoundOracle(flint, |vars|) && forall l | l in loops :: LoopReady(vars, l, flint)
    requires DistinctIds(loops)
    ensures Multipliers(lm, loops, vars, flint).Keys == lm.Keys + Ids(loops)
    ensures forall j | 0 <= j < |loops| :: Multipliers(lm, loops, vars, flint)[loops[j].id] == Multiplier(vars, loops[j], flint)
    ensures forall x | x in lm && x !in Ids(loops) :: Multipliers(lm, loops, vars, flint)[x] == lm[x]
  {
    SetEachEffect(lm, loops, MultiplierList(vars, loops, flint));
  }

  lemma {:induction false} SetEachOver(lm: map<nat, Poly>, loops: seq<Loop>, ms: seq<Poly>, n: nat)
    requires |ms| == |loops| && forall j | 0 <= j < |ms| :: WellFormed(ms[j], n)
    requires forall x | x in lm :: WellFormed(lm[x], n)
    ensures forall x | x in SetEach(lm, loops, ms) :: WellFormed(SetEach(lm, loops, ms)[x], n)
  {
    if loops != [] {
      SetEachOver(lm, loops[..|loops| - 1], ms[..|ms| - 1], n);
    }
  }

  /** The multiplier of one loop, computed as the source does. */
  method LoopMultiplier(vars: seq<RuntimeVar>, l: Loop, flint: Oracle) returns (m: Poly)
    requires SoundOracle(flint, |vars|) && LoopReady(vars, l, flint)
    ensures m == Multiplier(vars, l, flint)
  {
    if l.tripCount != 0 {
      var p := new CrelMpoly(|vars|);
      p.SetConstantUnsigned(l.tripCount);
      m := p.terms;
    } else {
      var accOut;
      m, accOut := EvaluateScev(vars, map[], l.backedge, flint);
    }
  }

  /** Taking one more element of `b` after `a`. */
  lemma ExtendPrefix<T>(a: seq<T>, b: seq<T>, j: nat)
    requires j < |b|
    ensures a + b[..j + 1] == (a + b[..j]) + [b[j]]
  {
    assert b[..j + 1] == b[..j] + [b[j]];
  }

  /** Step 2 on one more loop: its entry is set to its multiplier. */
  lemma MultipliersSnoc(lm: map<nat, Poly>, before: seq<Loop>, l: Loop, vars: seq<RuntimeVar>, flint: Oracle)
    requires SoundOracle(flint, |vars|) && forall x | x in before + [l] :: LoopReady(vars, x, flint)
    ensures forall x | x in before :: LoopReady(vars, x, flint)
    ensures Multipliers(lm, before + [l], vars, flint) == Multipliers(lm, before, vars, flint)[l.id := Multiplier(vars, l, flint)]
  {
    var after := before + [l];
    assert forall x | x in before :: x in after;
    assert MultiplierList(vars, after, flint) == MultiplierList(vars, before, flint) + [Multiplier(vars, l, flint)] by {
      assert forall j | 0 <= j < |before| :: after[j] == before[j];
    }
    SetEachSnoc(lm, before, MultiplierList(vars, before, flint), l, Multiplier(vars, l, flint));
  }

  /** Setting one more entry at the end of the fold. */
  lemma SetEachSnoc(lm: map<nat, Poly>, loops: seq<Loop>, ms: seq<Poly>, l: Loop, m: Poly)
    requires |ms| == |loops|
    ensures SetEach(lm, loops + [l], ms + [m]) == SetEach(lm, loops, ms)[l.id := m]
  {
    assert (loops + [l])[..|loops|] == loops;
    assert (ms + [m])[..|ms|] == ms;
  }

  /**
   * Step 2: every loop of every top-level nest, in preorder, gets its
   * multiplier in the kernel's `loopMultipliers`. The warning for nests
   * deeper than five changes nothing.
   */
  method LoopMultipliers(k: CrelKernel, loops: seq<Loop>, vars: seq<RuntimeVar>, flint: Oracle)
    requires k.Valid() && |k.runtimeVars| == |vars| && SoundOracle(flint, |vars|)
    requires forall l | l in PreorderAll(loops) :: LoopReady(vars, l, flint)
    modifies k
    ensures k.Valid()
    ensures k.View() == old(k.View()).(loopMultipliers := Multipliers(old(k.loopMultipliers), PreorderAll(loops), vars, flint))
  {
    var i := 0;
    PreorderAllPrefix(loops, 0);
    while i < |loops|
      invariant 0 <= i <= |loops|
      invariant forall l | l in PreorderAll(loops[..i]) :: l in PreorderAll(loops)
      invariant k.Valid()
      invariant k.View() == old(k.View()).(loopMultipliers := Multipliers(old(k.loopMultipliers), PreorderAll(loops[..i]), vars, flint))
    {
      PreorderAllSnoc(loops, i);
      PreorderAllPrefix(loops, i + 1);
      NestMultipliers(k, old(k.loopMultipliers), PreorderAll(loops[..i]), Preorder(loops[i]), vars, flint);
      i := i + 1;
    }
    assert loops[..i] == loops;
  }

  /** The inner loop of step 2: the loops of one nest, in preorder, after the loops `done`. */
  method NestMultipliers(k: CrelKernel, ghost lm: map<nat, Poly>, ghost done: seq<Loop>, nest: seq<Loop>,
                         vars: seq<RuntimeVar>, flint: Oracle)
    requires k.Valid() && |k.runtimeVars| == |vars| && SoundOracle(flint, |vars|)
    requires forall l | l in done + nest :: LoopReady(vars, l, flint)
    requires forall l | l in done :: LoopReady(vars, l, flint)
    requires k.loopMultipliers == Multipliers(lm, done, vars, flint)
    modifies k
    ensures k.Valid()
    ensures k.View() == old(k.View()).(loopMultipliers := Multipliers(lm, done + nest, vars, flint))
  {
    var j := 0;
    assert done + nest[..0] == done;
    while j < |nest|
      invariant 0 <= j <= |nest|
      invariant forall l | l in done + nest[..j] :: LoopReady(vars, l, flint)
      invariant k.Valid()
      invariant k.View() == old(k.View()).(loopMultipliers := Multipliers(lm, done + nest[..j], vars, flint))
    {
      var l := nest[j];
      assert l in done + nest;
      var m := LoopMultiplier(vars, l, flint);
      ExtendPrefix(done, nest, j);
      MultipliersSnoc(lm, done + nest[..j], l, vars, flint);
      k.loopMultipliers := k.loopMultipliers[l.id := m];
      j := j + 1;
    }
    assert nest[..j] == nest;
  }

  // ---------------------------------------------------------------------------
  // Step 3: loop multipliers applied to the blocks
  // ---------------------------------------------------------------------------

  lemma FeatureOfOver(bbf: FeatureMap, bb: nat, f: string, n: nat)
    requires FeatureMapOver(bbf, n)
    ensures WellFormed(FeatureOf(bbf, bb, f), n)
  {
  }

  lemma SetFeatureOver(bbf: FeatureMap, bb: nat, f: string, p: Poly, n: nat)
    requires FeatureMapOver(bbf, n) && WellFormed(p, n)
    ensures FeatureMapOver(SetFeature(bbf, bb, f, p), n)
  {
  }

  /** The innermost loop of step 3: `bbFeatures[bb][fn].multiply(m)` for each name, in order. */
  function ScaleRow(bbf: FeatureMap, bb: nat, names: seq<string>, m: Poly, n: nat): (r: FeatureMap)
    requires FeatureMapOver(bbf, n) && WellFormed(m, n)
    ensures FeatureMapOver(r, n)
  {
    if names == [] then bbf
    else
      var prev := ScaleRow(bbf, bb, names[..|names| - 1], m, n);
      var fn := names[|names| - 1];
      FeatureOfOver(prev, bb, fn, n);
      var p := Mul(FeatureOf(prev, bb, fn), m, n);
      SetFeatureOver(prev, bb, fn, p, n);
      SetFeature(prev, bb, fn, p)
  }

  /** The blocks loop of step 3 for one loop: only blocks already in the map are scaled. */
  function ScaleLoop(bbf: FeatureMap, blocks: seq<nat>, names: seq<string>, m: Poly, n: nat): (r: FeatureMap)
    requires FeatureMapOver(bbf, n) && WellFormed(m, n)
    ensures FeatureMapOver(r, n)
  {
    if blocks == [] then bbf
    else
      var prev := ScaleLoop(bbf, blocks[..|blocks| - 1], names, m, n);
      var b := blocks[|blocks| - 1];
      if b in prev then ScaleRow(prev, b, names, m, n) else prev
  }

  /** Every loop of `loops` has a multiplier over `n` variables. */
  ghost predicate HasMultipliers(loops: seq<Loop>, lm: map<nat, Poly>, n: nat) {
    forall l | l in loops :: l.id in lm && WellFormed(lm[l.id], n)
  }

  /** Step 3: each loop in turn scales its blocks by its multiplier. */
  function ScaleLoops(bbf: FeatureMap, loops: seq<Loop>, lm: map<nat, Poly>, names: seq<string>, n: nat): (r: FeatureMap)
    requires FeatureMapOver(bbf, n) && HasMultipliers(loops, lm, n)
    ensures FeatureMapOver(r, n)
  {
    if loops == [] then bbf
    else
      var last := loops[|loops| - 1];
      assert last in loops;
      ScaleLoop(ScaleLoops(bbf, loops[..|loops| - 1], lm, names, n), last.blocks, names, lm[last.id], n)
  }

  /** The multipliers of the loops of `loops` that contain block `b`, in order. */
  function Factors(loops: seq<Loop>, lm: map<nat, Poly>, b: nat): seq<Poly>
    requires forall l | l in loops :: l.id in lm
  {
    if loops == [] then []
    else
      var last := loops[|loops| - 1];
      Factors(loops[..|loops| - 1], lm, b) + (if b in last.blocks then [lm[last.id]] else [])
  }

  /** `p` multiplied by each factor in turn. */
  function Product(p: Poly, factors: seq<Poly>, n: nat): (r: Poly)
    requires WellFormed(p, n) && forall i | 0 <= i < |factors| :: WellFormed(factors[i], n)
    ensures WellFormed(r, n)
  {
    if factors == [] then p
    else Mul(Product(p, factors[..|factors| - 1], n), factors[|factors| - 1], n)
  }

  /** Scaling a row multiplies exactly the listed features of that block once. */
  lemma {:induction false} ScaleRowEffect(bbf: FeatureMap, bb: nat, names: seq<string>, m: Poly, n: nat, bb': nat, f': string)
    requires FeatureMapOver(bbf, n) && WellFormed(m, n) && Distinct(names) && bb in bbf
    ensures FeatureOf(ScaleRow(bbf, bb, names, m, n), bb', f') ==
            if bb' == bb && f' in names then Mul(FeatureOf(bbf, bb, f'), m, n) else FeatureOf(bbf, bb', f')
    ensures ScaleRow(bbf, bb, names, m, n).Keys == bbf.Keys
  {
    if names != [] {
      var init := names[..|names| - 1];
      var fn := names[|names| - 1];
      var prev := ScaleRow(bbf, bb, init, m, n);
      FeatureOfOver(prev, bb, fn, n);
      var p := Mul(FeatureOf(prev, bb, fn), m, n);
      assert ScaleRow(bbf, bb, names, m, n) == SetFeature(prev, bb, fn, p);
      DistinctSnoc(names);
      ScaleRowEffect(bbf, bb, init, m, n, bb', f');
      ScaleRowEffect(bbf, bb, init, m, n, bb, fn);
      SetFeatureEffect(prev, bb, fn, p, bb', f');
    }
  }

  /** Scaling for one loop multiplies each feature of each of its blocks in the map once. */
  lemma {:induction false} ScaleLoopEffect(bbf: FeatureMap, blocks: seq<nat>, names: seq<string>, m: Poly, n: nat, b: nat, f': string)
    requires FeatureMapOver(bbf, n) && WellFormed(m, n) && Distinct(names) && Distinct(blocks)
    ensures FeatureOf(ScaleLoop(bbf, blocks, names, m, n), b, f') ==
            if b in blocks && b in bbf && f' in names then Mul(FeatureOf(bbf, b, f'), m, n) else FeatureOf(bbf, b, f')
    ensures ScaleLoop(bbf, blocks, names, m, n).Keys == bbf.Keys
  {
    if blocks != [] {
      var init := blocks[..|blocks| - 1];
      var last := blocks[|blocks| - 1];
      var prev := ScaleLoop(bbf, init, names, m, n);
      DistinctSnoc(blocks);
      ScaleLoopEffect(bbf, init, names, m, n, b, f');
      if last in prev {
        assert ScaleLoop(bbf, blocks, names, m, n) == ScaleRow(prev, last, names, m, n);
        ScaleRowEffect(prev, last, names, m, n, b, f');
        if b == last {
          ScaleLoopEffect(bbf, init, names, m, n, last, f');
        }
      }
    }
  }

  /**
   * After step 3, each listed feature of a block in the map is its
   * step-1 polynomial multiplied by the multiplier of every loop that
   * contains the block, in loop order; everything else is unchanged.
   */
  lemma {:induction false} ScaleLoopsEffect(bbf: FeatureMap, loops: seq<Loop>, lm: map<nat, Poly>, names: seq<string>, n: nat,
                                            b: nat, f': string)
    requires FeatureMapOver(bbf, n) && HasMultipliers(loops, lm, n) && Distinct(names)
    requires forall l | l in loops :: Distinct(l.blocks)
    ensures forall i | 0 <= i < |Factors(loops, lm, b)| :: WellFormed(Factors(loops, lm, b)[i], n)
    ensures FeatureOf(ScaleLoops(bbf, loops, lm, names, n), b, f') ==
            if b in bbf && f' in names then Product(FeatureOf(bbf, b, f'), Factors(loops, lm, b), n)
            else FeatureOf(bbf, b, f')
    ensures ScaleLoops(bbf, loops, lm, names, n).Keys == bbf.Keys
  {
    if loops != [] {
      var init := loops[..|loops| - 1];
      var last := loops[|loops| - 1];
      assert last in loops;
      assert forall l | l in init :: l in loops;
      var prev := ScaleLoops(bbf, init, lm, names, n);
      ScaleLoopsEffect(bbf, init, lm, names, n, b, f');
      FeatureOfOver(bbf, b, f', n);
      assert ScaleLoops(bbf, loops, lm, names, n) == ScaleLoop(prev, last.blocks, names, lm[last.id], n);
      ScaleLoopEffect(prev, last.blocks, names, lm[last.id], n, b, f');
      var fs := Factors(init, lm, b);
      if b in last.blocks {
        assert Factors(loops, lm, b) == fs + [lm[last.id]];
        if b in bbf && f' in names {
          assert (fs + [lm[last.id]])[..|fs|] == fs;
        }
      } else {
        assert Factors(loops, lm, b) == fs;
      }
    }
  }

  /**
   * Step 3: for each loop, in preorder, every block of the loop that step
   * 1 initialised has each vocabulary feature multiplied by the loop's
   * multiplier; a block it did not initialise only draws an error message.
   */
  method ApplyMultipliers(k: CrelKernel, loops: seq<Loop>, names: seq<string>)
    requires k.Valid() && HasMultipliers(loops, k.loopMultipliers, |k.runtimeVars|)
    modifies k
    ensures k.Valid() && FeatureMapOver(old(k.bbFeatures), |k.runtimeVars|)
    ensures k.View() == old(k.View()).(bbFeatures := ScaleLoops(old(k.bbFeatures), loops, old(k.loopMultipliers), names, |k.runtimeVars|))
  {
    var n := |k.runtimeVars|;
    assert ViewValid(k.View());
    var i := 0;
    while i < |loops|
      invariant 0 <= i <= |loops|
      invariant FeatureMapOver(old(k.bbFeatures), n) && HasMultipliers(loops[..i], k.loopMultipliers, n)
      invariant k.Valid() && k.loopMultipliers == old(k.loopMultipliers)
      invariant k.View() == old(k.View()).(bbFeatures := ScaleLoops(old(k.bbFeatures), loops[..i], k.loopMultipliers, names, n))
    {
      var l := loops[i];
      assert l in loops;
      assert forall x | x in loops[..i + 1] :: x in loops;
      assert loops[..i + 1][..i] == loops[..i];
      ScaleLoopBlocks(k, l.blocks, names, k.loopMultipliers[l.id]);
      i := i + 1;
    }
    assert loops[..i] == loops;
  }

  /** The blocks loop of step 3 for one loop with multiplier `m`. */
  method ScaleLoopBlocks(k: CrelKernel, blocks: seq<nat>, names: seq<string>, m: Poly)
    requires k.Valid() && WellFormed(m, |k.runtimeVars|)
    modifies k
    ensures k.Valid()
    ensures k.View() == old(k.View()).(bbFeatures := ScaleLoop(old(k.bbFeatures), blocks, names, m, |k.runtimeVars|))
  {
    var j := 0;
    while j < |blocks|
      invariant 0 <= j <= |blocks|
      invariant k.Valid()
      invariant k.View() == old(k.View()).(bbFeatures := ScaleLoop(old(k.bbFeatures), blocks[..j], names, m, |k.runtimeVars|))
    {
      assert blocks[..j + 1][..j] == blocks[..j];
      var b := blocks[j];
      if b in k.bbFeatures {
        ScaleBlock(k, b, names, m);
      }
      j := j + 1;
    }
    assert blocks[..j] == blocks;
  }

  /** The innermost loop of step 3: each vocabulary feature of block `bb` is multiplied by `m`. */
  method ScaleBlock(k: CrelKernel, bb: nat, names: seq<string>, m: Poly)
    requires k.Valid() && WellFormed(m, |k.runtimeVars|)
    modifies k
    ensures k.Valid()
    ensures k.View() == old(k.View()).(bbFeatures := ScaleRow(old(k.bbFeatures), bb, names, m, |k.runtimeVars|))
  {
    var n := |k.runtimeVars|;
    var bbf := k.bbFeatures;
    ghost var start := bbf;
    var t := 0;
    while t < |names|
      invariant 0 <= t <= |names| && FeatureMapOver(start, n)
      invariant bbf == ScaleRow(start, bb, names[..t], m, n)
      invariant unchanged(k)
    {
      ScaleRowSnoc(start, bb, names, t, m, n);
      FeatureOfOver(bbf, bb, names[t], n);
      var p := Mul(FeatureOf(bbf, bb, names[t]), m, n);
      bbf := SetFeature(bbf, bb, names[t], p);
      t := t + 1;
    }
    assert names[..t] == names;
    k.bbFeatures := bbf;
  }

  /** One more name for the row: its feature is multiplied by `m`. */
  lemma ScaleRowSnoc(bbf: FeatureMap, bb: nat, names: seq<string>, t: nat, m: Poly, n: nat)
    requires FeatureMapOver(bbf, n) && WellFormed(m, n) && t < |names|
    ensures var prev := ScaleRow(bbf, bb, names[..t], m, n);
            WellFormed(FeatureOf(prev, bb, names[t]), n) &&
            ScaleRow(bbf, bb, names[..t + 1], m, n) ==
            SetFeature(prev, bb, names[t], Mul(FeatureOf(prev, bb, names[t]), m, n))
  {
    assert names[..t + 1][..t] == names[..t];
    FeatureOfOver(ScaleRow(bbf, bb, names[..t], m, n), bb, names[t], n);
  }

  // ---------------------------------------------------------------------------
  // Step 4: backward data-flow, one feature at a time
  // ---------------------------------------------------------------------------

  /** The successor lists of the blocks, by block position. */
  function Succs(blocks: seq<Block>): (r: seq<seq<nat>>)
    ensures |r| == |blocks| && forall b | 0 <= b < |blocks| :: r[b] == blocks[b].succs
  {
    seq(|blocks|, b requires 0 <= b < |blocks| => blocks[b].succs)
  }

  /** Step 4.1: each block's input starts as its step-3 polynomial for the feature. */
  function Inputs(bbf: FeatureMap, fn: string, count: nat): (r: seq<Poly>)
    ensures |r| == count && forall b | 0 <= b < count :: r[b] == FeatureOf(bbf, b, fn)
  {
    seq(count, (b: int) requires 0 <= b => FeatureOf(bbf, b, fn))
  }

  /**
   * `sol` is what the fixpoint loop of step 4 ends with from the initial
   * inputs `init`, and so a solution in the sense of `Solution`.
   */
  ghost predicate Analysis(sol: seq<Poly>, init: seq<Poly>, succs: seq<seq<nat>>, n: nat) {
    Result(sol, init, succs) && Solution(sol, init, succs, n) && |sol| >= 1
  }

  /** Each `sols[i]` is the result of the analysis of feature `names[i]` over the block polynomials `bbf`. */
  ghost predicate Solved(bbf: FeatureMap, blocks: seq<Block>, names: seq<string>, sols: seq<seq<Poly>>, n: nat) {
    |sols| == |names| &&
    forall i | 0 <= i < |names| :: Analysis(sols[i], Inputs(bbf, names[i], |blocks|), Succs(blocks), n)
  }

  /** Each listed feature is the entry-block input of its solution. */
  ghost predicate EntryResults(features: map<string, Poly>, names: seq<string>, sols: seq<seq<Poly>>)
    requires |sols| == |names|
  {
    forall i | 0 <= i < |names| :: |sols[i]| >= 1 && names[i] in features && features[names[i]] == sols[i][0]
  }

  /** The features not listed are kept; the listed ones are added. */
  ghost predicate OthersKept(features: map<string, Poly>, features': map<string, Poly>, names: seq<string>) {
    (forall fn :: fn in features' <==> fn in features || fn in names) &&
    (forall fn | fn in features && fn !in names :: features'[fn] == features[fn])
  }

  /**
   * The state after step 4 for the features `names`: only the kernel
   * features change; each listed feature is the entry-block input of a
   * solution of the analysis started from the block polynomials, and every
   * other feature is kept.
   */
  ghost predicate Analysed(v: KernelView, v': KernelView, blocks: seq<Block>, names: seq<string>, sols: seq<seq<Poly>>) {
    v' == v.(features := v'.features) &&
    Solved(v.bbFeatures, blocks, names, sols, |v.runtimeVars|) &&
    EntryResults(v'.features, names, sols) &&
    OthersKept(v.features, v'.features, names)
  }

  lemma SolvedSnoc(bbf: FeatureMap, blocks: seq<Block>, names: seq<string>, sols: seq<seq<Poly>>, n: nat, fn: string, sol: seq<Poly>)
    requires Solved(bbf, blocks, names, sols, n)
    requires Analysis(sol, Inputs(bbf, fn, |blocks|), Succs(blocks), n)
    ensures Solved(bbf, blocks, names + [fn], sols + [sol], n)
  {
    var names', sols' := names + [fn], sols + [sol];
    forall i | 0 <= i < |names'|
      ensures Analysis(sols'[i], Inputs(bbf, names'[i], |blocks|), Succs(blocks), n)
    {
      if i < |names| {
        assert names'[i] == names[i] && sols'[i] == sols[i];
      }
    }
  }

  lemma EntryResultsSnoc(features: map<string, Poly>, names: seq<string>, sols: seq<seq<Poly>>, fn: string, sol: seq<Poly>)
    requires |sols| == |names| && EntryResults(features, names, sols) && fn !in names && |sol| >= 1
    ensures EntryResults(features[fn := sol[0]], names + [fn], sols + [sol])
  {
    var names', sols' := names + [fn], sols + [sol];
    forall i | 0 <= i < |names'|
      ensures |sols'[i]| >= 1 && names'[i] in features[fn := sol[0]] && features[fn := sol[0]][names'[i]] == sols'[i][0]
    {
      if i < |names| {
        assert names'[i] == names[i] && sols'[i] == sols[i];
        assert names[i] in names;
      }
    }
  }

  lemma OthersKeptSnoc(features: map<string, Poly>, features': map<string, Poly>, names: seq<string>, fn: string, p: Poly)
    requires OthersKept(features, features', names)
    ensures OthersKept(features, features'[fn := p], names + [fn])
  {
    assert forall x :: x in names + [fn] <==> x in names || x == fn;
  }

  /** One more feature analysed: the step of the feature loop of step 4. */
  lemma AnalysedSnoc(v: KernelView, v': KernelView, blocks: seq<Block>, names: seq<string>, sols: seq<seq<Poly>>,
                     fn: string, sol: seq<Poly>)
    requires Analysed(v, v', blocks, names, sols) && fn !in names
    requires Analysis(sol, Inputs(v.bbFeatures, fn, |blocks|), Succs(blocks), |v.runtimeVars|)
    ensures Analysed(v, v'.(features := v'.features[fn := sol[0]]), blocks, names + [fn], sols + [sol])
  {
    SolvedSnoc(v.bbFeatures, blocks, names, sols, |v.runtimeVars|, fn, sol);
    EntryResultsSnoc(v'.features, names, sols, fn, sol);
    OthersKeptSnoc(v.features, v'.features, names, fn, sol[0]);
  }

  /** `AnalysedSnoc` for the next name of a list without repetitions. */
  lemma AnalysedNext(v: KernelView, v': KernelView, blocks: seq<Block>, names: seq<string>, i: nat,
                     sols: seq<seq<Poly>>, sol: seq<Poly>)
    requires Distinct(names) && i < |names| && Analysed(v, v', blocks, names[..i], sols)
    requires Analysis(sol, Inputs(v.bbFeatures, names[i], |blocks|), Succs(blocks), |v.runtimeVars|)
    ensures Analysed(v, v'.(features := v'.features[names[i] := sol[0]]), blocks, names[..i + 1], sols + [sol])
  {
    var pre, fn := names[..i], names[i];
    assert fn !in pre by {
      forall j | 0 <= j < i
        ensures pre[j] != fn
      {
        assert pre[j] == names[j];
      }
    }
    assert names[..i + 1] == pre + [fn];
    AnalysedSnoc(v, v', blocks, pre, sols, fn, sol);
  }

  /** Step 4.1 for one feature: the initial input of every block. */
  method InitialInputs(k: CrelKernel, fn: string, count: nat) returns (init: seq<Poly>)
    requires k.Valid()
    ensures init == Inputs(k.bbFeatures, fn, count)
    ensures forall b | 0 <= b < count :: WellFormed(init[b], |k.runtimeVars|)
  {
    init := [];
    for b := 0 to count
      invariant init == Inputs(k.bbFeatures, fn, b)
      invariant forall c | 0 <= c < b :: WellFormed(init[c], |k.runtimeVars|)
    {
      FeatureOfOver(k.bbFeatures, b, fn, |k.runtimeVars|);
      init := init + [FeatureOf(k.bbFeatures, b, fn)];
    }
  }

  /**
   * Step 4: for each feature, the data-flow analysis over the blocks; the
   * entry block's input becomes the kernel feature. `sols` records, per
   * feature, the block inputs the analysis ended with.
   */
  method DataflowFeatures(k: CrelKernel, blocks: seq<Block>, names: seq<string>) returns (ghost sols: seq<seq<Poly>>)
    requires k.Valid() && |blocks| >= 1 && Edges(Succs(blocks)) && Distinct(names)
    modifies k
    ensures k.Valid()
    ensures Analysed(old(k.View()), k.View(), blocks, names, sols)
  {
    sols := [];
    for i := 0 to |names|
      invariant k.Valid() && k.bbFeatures == old(k.bbFeatures)
      invariant Analysed(old(k.View()), k.View(), blocks, names[..i], sols)
    {
      var fn := names[i];
      ghost var before := k.View();
      ghost var sol := AnalyseFeature(k, blocks, fn);
      AnalysedNext(old(k.View()), before, blocks, names, i, sols, sol);
      sols := sols + [sol];
    }
    assert names[..|names|] == names;
  }

  /**
   * Step 4 for one feature: the data-flow analysis from the blocks' feature
   * polynomials, whose entry input becomes the kernel feature.
   */
  method AnalyseFeature(k: CrelKernel, blocks: seq<Block>, fn: string) returns (ghost sol: seq<Poly>)
    requires k.Valid() && |blocks| >= 1 && Edges(Succs(blocks))
    modifies k
    ensures k.Valid()
    ensures Analysis(sol, Inputs(old(k.bbFeatures), fn, |blocks|), Succs(blocks), |k.runtimeVars|)
    ensures k.View() == old(k.View()).(features := old(k.features)[fn := sol[0]])
  {
    var n := |k.runtimeVars|;
    var init := InitialInputs(k, fn, |blocks|);
    var input, output, sweeps := Fixpoint(init, Succs(blocks), n);
    k.features := k.features[fn := input[0]];
    sol := input;
    ResultSolution(sol, init, Succs(blocks), n);
  }

  // ---------------------------------------------------------------------------
  // The whole of `poly_crel_pass::eval_function`
  // ---------------------------------------------------------------------------

  /**
   * What the pass needs of a kernel function: its geometry calls have
   * constant dimensions, it has an entry block, its successors are blocks,
   * the classifier can read its calls, the polynomial library answers
   * divisions soundly, every loop's multiplier can be computed, and no loop
   * is listed twice in the preorder of the loop forest.
   */
  ghost predicate KernelReady(f: Function, variant: Variant, flint: Oracle) {
    Discoverable(f) && |f.blocks| >= 1 && SuccessorsInRange(f) &&
    AllClassifiable(variant, f.blocks) &&
    SoundOracle(flint, |DiscoverVars(f)|) &&
    (forall l | l in PreorderAll(f.loops) :: LoopReady(DiscoverVars(f), l, flint)) &&
    DistinctIds(PreorderAll(f.loops))
  }

  /**
   * A kernel entry left by an earlier run can be resumed: its polynomials
   * have as many variables as the function's, and it has no multiplier for
   * a loop the function does not have.
   */
  ghost predicate Resumable(v: KernelView, f: Function) {
    Discoverable(f) && |v.runtimeVars| == |DiscoverVars(f)| && v.loopMultipliers.Keys <= Ids(PreorderAll(f.loops))
  }

  /** Step 2 gives every loop of the forest a well-formed multiplier. */
  lemma MultipliersReady(lm: map<nat, Poly>, loops: seq<Loop>, vars: seq<RuntimeVar>, flint: Oracle)
    requires SoundOracle(flint, |vars|) && forall l | l in loops :: LoopReady(vars, l, flint)
    requires DistinctIds(loops) && forall x | x in lm :: WellFormed(lm[x], |vars|)
    ensures HasMultipliers(loops, Multipliers(lm, loops, vars, flint), |vars|)
    ensures forall x | x in Multipliers(lm, loops, vars, flint) :: WellFormed(Multipliers(lm, loops, vars, flint)[x], |vars|)
  {
    MultipliersEffect(lm, loops, vars, flint);
    SetEachOver(lm, loops, MultiplierList(vars, loops, flint), |vars|);
    forall l | l in loops
      ensures l.id in Ids(loops)
    {
    }
  }

  /** The kernel state after steps 1 to 3, from the state `start` of the stored entry. */
  ghost function Steps123(start: KernelView, f: Function, variant: Variant, names: seq<string>, flint: Oracle): (v: KernelView)
    requires KernelReady(f, variant, flint) && ViewValid(start) && |start.runtimeVars| == |DiscoverVars(f)|
    ensures ViewValid(v) && v.runtimeVars == start.runtimeVars
    ensures HasMultipliers(PreorderAll(f.loops), v.loopMultipliers, |start.runtimeVars|)
  {
    var vars := DiscoverVars(f);
    var loops := PreorderAll(f.loops);
    var labels := BlockLabels(variant, f.blocks);
    EvalBlocksOver(start, labels, names);
    EvalBlocksFrame(start, labels, names, 0, "");
    var v1 := EvalBlocks(start, labels, names);
    MultipliersReady(v1.loopMultipliers, loops, vars, flint);
    var lm := Multipliers(v1.loopMultipliers, loops, vars, flint);
    v1.(loopMultipliers := lm, bbFeatures := ScaleLoops(v1.bbFeatures, loops, lm, names, |vars|))
  }

  /** The kernel state `v'` is what the pass produces from `start`, with `sols` the data-flow solutions. */
  ghost predicate PolyCrelResult(start: KernelView, v': KernelView, f: Function, variant: Variant, names: seq<string>,
                                 flint: Oracle, sols: seq<seq<Poly>>) {
    KernelReady(f, variant, flint) && ViewValid(start) && |start.runtimeVars| == |DiscoverVars(f)| &&
    Analysed(Steps123(start, f, variant, names, flint), v', f.blocks, names, sols)
  }

  /**
   * Before the data-flow, block `b`'s polynomial for a vocabulary feature
   * is the number of its instructions classified under that feature,
   * multiplied by the multiplier of every loop that contains the block, in
   * preorder.
   */
  lemma {:induction false} BlockCost(start: KernelView, f: Function, variant: Variant, names: seq<string>, flint: Oracle,
                                     b: nat, i: nat)
    requires KernelReady(f, variant, flint) && ViewValid(start) && |start.runtimeVars| == |DiscoverVars(f)|
    requires forall l | l in PreorderAll(f.loops) :: Distinct(l.blocks)
    requires b < |f.blocks| && i < |names| && Distinct(names) && names[i] != ""
    ensures forall j | 0 <= j < |Factors(PreorderAll(f.loops), Steps123(start, f, variant, names, flint).loopMultipliers, b)| ::
              WellFormed(Factors(PreorderAll(f.loops), Steps123(start, f, variant, names, flint).loopMultipliers, b)[j], |start.runtimeVars|)
    ensures FeatureOf(Steps123(start, f, variant, names, flint).bbFeatures, b, names[i]) ==
            Product(Const(|start.runtimeVars|, IntQ(Occurrences(BlockLabels(variant, f.blocks)[b], names[i]))),
                    Factors(PreorderAll(f.loops), Steps123(start, f, variant, names, flint).loopMultipliers, b), |start.runtimeVars|)
  {
    var vars := DiscoverVars(f);
    var n := |start.runtimeVars|;
    var loops := PreorderAll(f.loops);
    var labels := BlockLabels(variant, f.blocks);
    var v1 := EvalBlocks(start, labels, names);
    EvalBlocksOver(start, labels, names);
    EvalBlocksFrame(start, labels, names, b, names[i]);
    MultipliersReady(v1.loopMultipliers, loops, vars, flint);
    var lm := Multipliers(v1.loopMultipliers, loops, vars, flint);
    assert Steps123(start, f, variant, names, flint) == v1.(loopMultipliers := lm, bbFeatures := ScaleLoops(v1.bbFeatures, loops, lm, names, n));
    ScaledCount(start, labels, names, loops, lm, n, b, i);
  }

  /** Steps 1 and 3 together: the count of a feature in a block, times the block's loop multipliers. */
  lemma {:induction false} ScaledCount(v: KernelView, labels: seq<seq<string>>, names: seq<string>, loops: seq<Loop>,
                                       lm: map<nat, Poly>, n: nat, b: nat, i: nat)
    requires |v.runtimeVars| == n && FeatureMapOver(EvalBlocks(v, labels, names).bbFeatures, n)
    requires b < |labels| && i < |names| && Distinct(names) && names[i] != ""
    requires HasMultipliers(loops, lm, n) && forall l | l in loops :: Distinct(l.blocks)
    ensures forall j | 0 <= j < |Factors(loops, lm, b)| :: WellFormed(Factors(loops, lm, b)[j], n)
    ensures FeatureOf(ScaleLoops(EvalBlocks(v, labels, names).bbFeatures, loops, lm, names, n), b, names[i]) ==
            Product(Const(n, IntQ(Occurrences(labels[b], names[i]))), Factors(loops, lm, b), n)
  {
    var bbf := EvalBlocks(v, labels, names).bbFeatures;
    ResetCount(v, labels, names, b, names[i]);
    ScaleLoopsEffect(bbf, loops, lm, names, n, b, names[i]);
  }

  /** After step 1 every block is in the map, and a listed feature counts the block's instructions under it. */
  lemma {:induction false} ResetCount(v: KernelView, labels: seq<seq<string>>, names: seq<string>, b: nat, fn: string)
    requires b < |labels| && fn in names && fn != ""
    ensures b in EvalBlocks(v, labels, names).bbFeatures
    ensures FeatureOf(EvalBlocks(v, labels, names).bbFeatures, b, fn) == Const(|v.runtimeVars|, IntQ(Occurrences(labels[b], fn)))
  {
    assert b in EvalBlocks(v, labels, names).bbFeatures by {
      assert names != [];
      EvalBlocksFrame(v, labels, names, b, fn);
    }
    EvalBlocksCount(v, labels, names, b, fn, 0);
  }

  /**
   * The kernel feature bounds, term by term, the step-3 polynomial of
   * every exit block reachable from the entry block.
   */
  lemma {:induction false} FeatureCoversExits(start: KernelView, v': KernelView, f: Function, variant: Variant, names: seq<string>,
                                              flint: Oracle, sols: seq<seq<Poly>>, i: nat, path: seq<nat>)
    requires PolyCrelResult(start, v', f, variant, names, flint, sols) && i < |names|
    requires IsPath(Succs(f.blocks), path) && path[0] == 0 && f.blocks[path[|path| - 1]].succs == []
    ensures names[i] in v'.features
    ensures Below(FeatureOf(Steps123(start, f, variant, names, flint).bbFeatures, path[|path| - 1], names[i]),
                  v'.features[names[i]])
  {
    var v := Steps123(start, f, variant, names, flint);
    var fn := names[i];
    var init := Inputs(v.bbFeatures, fn, |f.blocks|);
    assert Solution(sols[i], init, Succs(f.blocks), |v.runtimeVars|);
    SolutionAlongPath(sols[i], init, Succs(f.blocks), |v.runtimeVars|, path);
  }

  /**
   * `poly_crel_pass::eval_function`: a function that is not a kernel is
   * skipped; otherwise the kernel entry is stored if absent, and steps 1
   * to 4 update it in place.
   */
  method EvalFunction(fs: CrelFeatureSet, f: Function, flint: Oracle) returns (ghost sols: seq<seq<Poly>>)
    requires fs.Valid()
    requires f.isClKernel ==> KernelReady(f, fs.variant, flint)
    requires f.isClKernel && f.name in fs.kernels ==> Resumable(fs.kernels[f.name].View(), f)
    modifies fs, fs.Stored(f.name)
    ensures fs.Valid()
    ensures !f.isClKernel ==> fs.kernels == old(fs.kernels) && unchanged(fs.Stored(f.name))
    ensures f.isClKernel ==> f.name in fs.kernels && fs.kernels == old(fs.kernels)[f.name := fs.kernels[f.name]]
    ensures f.isClKernel && f.name in old(fs.kernels) ==> fs.kernels == old(fs.kernels)
    ensures f.isClKernel && f.name !in old(fs.kernels) ==> fresh(fs.kernels[f.name])
    ensures f.isClKernel ==>
              PolyCrelResult(if f.name in old(fs.kernels) then old(fs.kernels[f.name].View()) else InitialView(f),
                             fs.kernels[f.name].View(), f, fs.variant, fs.featNames, flint, sols)
  {
    sols := [];
    if !f.isClKernel {
      return;
    }
    ghost var start := if f.name in fs.kernels then fs.kernels[f.name].View() else InitialView(f);
    var kernel, k := StoreKernel(fs, f);
    sols := PolyCrelSteps(fs, f, k, kernel.runtimeVars, flint);
    assert PolyCrelResult(start, fs.kernels[f.name].View(), f, fs.variant, fs.featNames, flint, sols);
  }

  /**
   * `crel_kernel kernel(&func)`, stored under the function's identifier
   * unless an entry exists; `k` is the stored entry either way.
   */
  method StoreKernel(fs: CrelFeatureSet, f: Function) returns (kernel: CrelKernel, k: CrelKernel)
    requires fs.Valid() && Discoverable(f)
    modifies fs
    ensures fs.Valid() && kernel.runtimeVars == DiscoverVars(f)
    ensures f.name in fs.kernels && fs.kernels[f.name] == k && fs.kernels == old(fs.kernels)[f.name := k]
    ensures f.name in old(fs.kernels) ==> k == old(fs.kernels[f.name]) && fs.kernels == old(fs.kernels)
    ensures f.name !in old(fs.kernels) ==> fresh(k) && k.View() == InitialView(f)
  {
    kernel := new CrelKernel(f);
    if f.name !in fs.kernels {
      fs.Store(f.name, kernel);
    }
    k := fs.kernels[f.name];
  }

  /** Steps 1 to 4 on the stored kernel `k`, with `vars` the variables of the function's own kernel object. */
  method PolyCrelSteps(fs: CrelFeatureSet, f: Function, k: CrelKernel, vars: seq<RuntimeVar>, flint: Oracle)
    returns (ghost sols: seq<seq<Poly>>)
    requires fs.Valid() && f.name in fs.kernels && fs.kernels[f.name] == k
    requires KernelReady(f, fs.variant, flint) && Resumable(k.View(), f) && vars == DiscoverVars(f)
    modifies fs, k
    ensures fs.Valid() && fs.kernels == old(fs.kernels)
    ensures PolyCrelResult(old(k.View()), k.View(), f, fs.variant, fs.featNames, flint, sols)
  {
    ghost var start := k.View();
    assert ViewValid(start);
    AccumulateBlocks(fs, f.name, k, f.blocks);
    VocabularyDistinct(fs.variant);
    sols := Steps234(k, f, fs.variant, fs.featNames, vars, flint, start);
    assert fs.Valid() by {
      forall x | x in fs.kernels
        ensures fs.kernels[x].Valid()
      {
        if x != f.name {
          assert fs.kernels[x] != k;
        }
      }
    }
  }

  /** Steps 2 to 4, once step 1 has taken the kernel from `start` to its current state. */
  method Steps234(k: CrelKernel, f: Function, variant: Variant, names: seq<string>, vars: seq<RuntimeVar>, flint: Oracle,
                  ghost start: KernelView)
    returns (ghost sols: seq<seq<Poly>>)
    requires KernelReady(f, variant, flint) && ViewValid(start) && |start.runtimeVars| == |DiscoverVars(f)|
    requires vars == DiscoverVars(f) && Distinct(names)
    requires k.Valid() && k.View() == EvalBlocks(start, BlockLabels(variant, f.blocks), names)
    modifies k
    ensures k.Valid()
    ensures PolyCrelResult(start, k.View(), f, variant, names, flint, sols)
  {
    EvalBlocksFrame(start, BlockLabels(variant, f.blocks), names, 0, "");
    ghost var lm := k.loopMultipliers;
    LoopMultipliers(k, f.loops, vars, flint);
    MultipliersReady(lm, PreorderAll(f.loops), vars, flint);
    ApplyMultipliers(k, PreorderAll(f.loops), names);
    assert k.View() == Steps123(start, f, variant, names, flint);
    assert SuccessorsInRange(f);
    sols := DataflowFeatures(k, f.blocks, names);
  }

  // ---------------------------------------------------------------------------
  // `crel_feature_pass`
  // ---------------------------------------------------------------------------

  /**
   * `crel_feature_pass::eval_function`: the kernel entry is stored if
   * absent, then `eval_BB` evaluates every instruction of every block once
   * with contribution 1. Nothing is reset and nothing is multiplied.
   */
  method FeaturePassEvalFunction(fs: CrelFeatureSet, f: Function)
    requires fs.Valid() && AllClassifiable(fs.variant, f.blocks)
    requires f.name !in fs.kernels ==> Discoverable(f)
    modifies fs, fs.Stored(f.name)
    ensures fs.Valid() && f.name in fs.kernels && fs.kernels == old(fs.kernels)[f.name := fs.kernels[f.name]]
    ensures f.name in old(fs.kernels) ==> fs.kernels == old(fs.kernels)
    ensures f.name !in old(fs.kernels) ==> fresh(fs.kernels[f.name])
    ensures fs.kernels[f.name].View() ==
            EvalBlocks(if f.name in old(fs.kernels) then old(fs.kernels[f.name].View()) else InitialView(f),
                       BlockLabels(fs.variant, f.blocks), [])
  {
    if f.name !in fs.kernels {
      var kernel := new CrelKernel(f);
      fs.Store(f.name, kernel);
    }
    var k := fs.kernels[f.name];
    EvalBlocksOnce(fs, f.name, k, f.blocks);
  }

  /** The block loop of the plain pass: `eval_BB` on each block in order. */
  method EvalBlocksOnce(fs: CrelFeatureSet, name: string, k: CrelKernel, blocks: seq<Block>)
    requires fs.Valid() && name in fs.kernels && fs.kernels[name] == k
    requires AllClassifiable(fs.variant, blocks)
    modifies fs, k
    ensures fs.Valid() && fs.kernels == old(fs.kernels)
    ensures k.View() == EvalBlocks(old(k.View()), BlockLabels(fs.variant, blocks), [])
  {
    ghost var labels := BlockLabels(fs.variant, blocks);
    for b := 0 to |blocks|
      invariant fs.Valid() && fs.kernels == old(fs.kernels)
      invariant k.View() == EvalBlocks(old(k.View()), labels[..b], [])
    {
      ghost var prev := k.View();
      EvalBlocksSnoc(old(k.View()), labels, [], b);
      assert prev.(bbFeatures := ResetRow(prev.bbFeatures, b, [])) == prev;
      EvalBlock(fs, name, k, b, blocks[b].instrs);
    }
    assert labels[..|blocks|] == labels;
  }

}
