/**
 * `poly_crel_pass::evaluateValue` and `evaluateSCEV`: the translation of an
 * LLVM value or scalar-evolution expression into a polynomial over the
 * kernel's runtime variables.
 *
 * `EvalValue` and `EvalScev` are the specification: `None` stands for a run
 * that crashes or has undefined behaviour (a null dereference, a division
 * by a zero constant, a shift amount outside 0..31, a constant wider than
 * 64 bits, the raw numerator of a non-small constant). The methods
 * `EvaluateValue` and `EvaluateScev` walk the trees as the source does,
 * loops included, and are proved to compute the specification.
 */
module Evaluator {
  import opened Rationals
  import opened Mpoly
  import opened Ir
  import opened CrelKernel

  /** FLINT's `fmpq_mpoly_divides`, an input: its answer for a dividend and a divisor. */
  type Oracle = (Poly, Poly) -> Quotient

  /** The oracle answers every non-constant division over `n` variables as FLINT promises. */
  ghost predicate SoundOracle(flint: Oracle, n: nat)
  {
    forall s: Poly, p: Poly {:trigger flint(s, p)} ::
      WellFormed(s, n) && WellFormed(p, n) && p != map[] && !IsConst(p) ==> QuotientSound(s, p, n, flint(s, p))
  }

  /** The position of the first variable standing for value `id`, or `|vars|` when none does. */
  function VarIndex(vars: seq<RuntimeVar>, id: nat): (i: nat)
    ensures i <= |vars|
    ensures i < |vars| ==> vars[i].value == id
    ensures forall j | 0 <= j < i :: vars[j].value != id
  {
    if vars == [] then 0
    else if vars[0].value == id then 0
    else 1 + VarIndex(vars[1..], id)
  }

  function Pow2(k: nat): (r: nat)
    ensures r >= 1
  {
    if k == 0 then 1 else 2 * Pow2(k - 1)
  }

  /** A mathematical integer as a 32-bit two's-complement `int`. */
  function Int32Of(x: int): (r: int)
    ensures -0x8000_0000 <= r < 0x8000_0000
    ensures -0x8000_0000 <= x < 0x8000_0000 ==> r == x
  {
    var w := x % 0x1_0000_0000;
    if w >= 0x8000_0000 then w - 0x1_0000_0000 else w
  }

  /**
   * The factor `1 << k` for an `int` literal 1 and a shift amount `k` read as
   * an unsigned long: the 32-bit two's-complement value of 2^k, defined for
   * k in 0..31 (31 gives the negative `int` minimum) and undefined otherwise.
   */
  function ShiftFactor(k: int): (f: Option<int>)
    ensures f.Some? <==> 0 <= k <= 31
    ensures f.Some? ==> f.value == Int32Of(Pow2(k)) && f.value != 0
  {
    if 0 <= k <= 30 then
      Pow2Add(k, 30 - k);
      Pow2Of30();
      Some(Pow2(k))
    else if k == 31 then
      Pow2Of30();
      Some(-0x8000_0000)
    else None
  }

  lemma {:induction false} Pow2Add(a: nat, b: nat)
    ensures Pow2(a + b) == Pow2(a) * Pow2(b)
  {
    if a > 0 {
      Pow2Add(a - 1, b);
    }
  }

  lemma Pow2Of30()
    ensures Pow2(30) == 0x4000_0000
  {
    assert Pow2(5) == 32 by {
      assert Pow2(1) == 2 && Pow2(2) == 4 && Pow2(3) == 8 && Pow2(4) == 16;
    }
    Pow2Add(5, 5);
    Pow2Add(10, 10);
    Pow2Add(10, 20);
  }

  /** A signed 64-bit value as its bit pattern. */
  function ToBv64(x: int): bv64
    requires Int64(x)
  {
    (if x < 0 then x + 0x1_0000_0000_0000_0000 else x) as bv64
  }

  /** A bit pattern read back as a signed 64-bit value. */
  function FromBv64(b: bv64): (x: int)
    ensures Int64(x)
  {
    if b as int >= 0x8000_0000_0000_0000 then b as int - 0x1_0000_0000_0000_0000 else b as int
  }

  /** `long & long` and `long ^ long`. */
  function BitAnd64(x: int, y: int): (r: int)
    requires Int64(x) && Int64(y)
    ensures Int64(r)
  {
    FromBv64(ToBv64(x) & ToBv64(y))
  }

  function BitXor64(x: int, y: int): (r: int)
    requires Int64(x) && Int64(y)
    ensures Int64(r)
  {
    FromBv64(ToBv64(x) ^ ToBv64(y))
  }

  // ---------------------------------------------------------------------------
  // evaluateValue
  // ---------------------------------------------------------------------------

  /** The constant 1 over `n` variables: the fallback result. */
  function One(n: nat): (r: Poly)
    ensures WellFormed(r, n) && IsConst(r) && ConstValue(r, n) == 1.0
  {
    Const(n, IntQ(1))
  }

  predicate IsArith(op: ValueOp) { op.AddOp? || op.SubOp? || op.SDivOp? || op.UDivOp? }
  predicate IsShift(op: ValueOp) { op.ShlOp? || op.LShrOp? }
  predicate IsBitwise(op: ValueOp) { op.AndOp? || op.XorOp? }

  /**
   * `add`, `sub`, `sdiv` and `udiv` of two operand polynomials: coefficients
   * add or subtract; a division by the zero polynomial is FLINT's abort; a
   * constant divisor divides every coefficient; a non-constant one gives the
   * exact quotient when there is one and the dividend otherwise.
   */
  function ArithNode(op: ValueOp, a: Poly, b: Poly, n: nat, flint: Oracle): (r: Option<Poly>)
    requires IsArith(op) && SoundOracle(flint, n) && WellFormed(a, n) && WellFormed(b, n)
    ensures r.Some? ==> WellFormed(r.value, n)
    ensures op == AddOp ==> r.Some? && forall m :: Coef(r.value, m) == Coef(a, m) + Coef(b, m)
    ensures op == SubOp ==> r.Some? && forall m :: Coef(r.value, m) == Coef(a, m) - Coef(b, m)
    ensures (op == SDivOp || op == UDivOp) ==> (r.Some? <==> b != map[]) && (r.Some? ==> IsQuotient(r.value, a, b, n))
  {
    if op == AddOp then
      WellFormedPlus(a, b, n);
      Some(Plus(a, b))
    else if op == SubOp then
      WellFormedPlus(a, b, n);
      Some(Minus(a, b))
    else if b == map[] then None
    else Some(DividePoly(a, b, n, flint(a, b)))
  }

  /** Every coefficient of `r` is that of `a` multiplied (`shl`) or divided (`lshr`) by `factor`. */
  ghost predicate ShiftedBy(op: ValueOp, r: Poly, a: Poly, factor: int)
    requires factor != 0
  {
    forall m :: Coef(r, m) == if op == ShlOp then Coef(a, m) * factor as real else Coef(a, m) / factor as real
  }

  /** `multiply(long)` for `shl` and `divideby(long)` for `lshr`. */
  function ShiftPoly(op: ValueOp, a: Poly, factor: int, n: nat): (r: Poly)
    requires factor != 0 && WellFormed(a, n)
    ensures WellFormed(r, n) && ShiftedBy(op, r, a, factor)
  {
    WellFormedScale(a, IntQ(factor), n);
    if op == ShlOp then Scale(a, IntQ(factor)) else DivScalar(a, IntQ(factor))
  }

  /**
   * `shl` and `lshr`: the shift amount is evaluated first; a non-constant
   * amount gives the fallback 1 without the shifted operand being looked at;
   * a constant amount whose numerator k is in 0..31 multiplies (`shl`) or
   * divides (`lshr`) the shifted operand by `1 << k`, 2^k or, for 31, the
   * negative `int` minimum; any other k is undefined behaviour.
   */
  function ShiftNode(op: ValueOp, amount: Option<Poly>, a: Option<Poly>, n: nat): (r: Option<Poly>)
    requires IsShift(op)
    requires amount.Some? ==> WellFormed(amount.value, n)
    requires a.Some? ==> WellFormed(a.value, n)
    ensures r.Some? ==> WellFormed(r.value, n)
    ensures amount.None? ==> r.None?
    ensures amount.Some? && !IsConst(amount.value) ==> r == Some(One(n))
    ensures amount.Some? && IsConst(amount.value) ==>
              var k := Numerator(ConstValue(amount.value, n));
              (r.Some? <==> a.Some? && 0 <= k <= 31) &&
              (r.Some? ==> ShiftedBy(op, r.value, a.value, ShiftFactor(k).value))
  {
    if amount.None? then None
    else if !IsConst(amount.value) then Some(One(n))
    else
      var k := Numerator(ConstValue(amount.value, n));
      if a.None? || !SmallInt(k) || ShiftFactor(k).None? then None
      else
        Some(ShiftPoly(op, a.value, ShiftFactor(k).value, n))
  }

  /**
   * `and` and `xor`: two constant operands with small numerators give the
   * constant bitwise result of the numerators; a non-constant operand gives
   * the fallback 1.
   */
  function BitwiseNode(op: ValueOp, a: Option<Poly>, b: Option<Poly>, n: nat): (r: Option<Poly>)
    requires IsBitwise(op)
    requires a.Some? ==> WellFormed(a.value, n)
    requires b.Some? ==> WellFormed(b.value, n)
    ensures r.Some? ==> WellFormed(r.value, n) && a.Some? && b.Some?
    ensures a.Some? && b.Some? && !(IsConst(a.value) && IsConst(b.value)) ==> r == Some(One(n))
    ensures a.Some? && b.Some? && IsConst(a.value) && IsConst(b.value) ==>
              var x, y := Numerator(ConstValue(a.value, n)), Numerator(ConstValue(b.value, n));
              (r.Some? <==> SmallInt(x) && SmallInt(y)) &&
              (r.Some? ==>
                 IsConst(r.value) &&
                 ConstValue(r.value, n) == (if op == AndOp then BitAnd64(x, y) else BitXor64(x, y)) as real)
  {
    if a.None? || b.None? then None
    else if IsConst(a.value) && IsConst(b.value) then
      var x := Numerator(ConstValue(a.value, n));
      var y := Numerator(ConstValue(b.value, n));
      if !SmallInt(x) || !SmallInt(y) then None
      else Some(Const(n, IntQ(if op == AndOp then BitAnd64(x, y) else BitXor64(x, y))))
    else Some(One(n))
  }

  /** What `evaluateValue` computes for `v`; `None` where the source crashes. */
  function EvalValue(vars: seq<RuntimeVar>, v: Value, flint: Oracle): (r: Option<Poly>)
    requires SoundOracle(flint, |vars|)
    ensures r.Some? ==> WellFormed(r.value, |vars|)
    decreases v
  {
    var n := |vars|;
    var i := VarIndex(vars, v.id);
    if i < n then Some(Var(n, i))
    else
      match v.def
      case ConstantIntValue(c) => if Int64(c) then Some(Const(n, IntQ(c))) else None
      case ArgValue => None
      case OtherValue => None
      case InstValue(op, args) =>
        if (IsArith(op) || IsShift(op) || IsBitwise(op)) && |args| != 2 then None
        else if IsArith(op) then
          var a := EvalValue(vars, args[0], flint);
          var b := EvalValue(vars, args[1], flint);
          if a.None? || b.None? then None else ArithNode(op, a.value, b.value, n, flint)
        else if IsShift(op) then
          ShiftNode(op, EvalValue(vars, args[1], flint), EvalValue(vars, args[0], flint), n)
        else if IsBitwise(op) then
          BitwiseNode(op, EvalValue(vars, args[0], flint), EvalValue(vars, args[1], flint), n)
        else Some(One(n))
  }

  /**
   * A value standing for a runtime variable is that variable: coefficient 1
   * on x_i for the first variable i with that value, and no other term.
   */
  lemma EvalValueVariable(vars: seq<RuntimeVar>, v: Value, flint: Oracle, i: nat)
    requires SoundOracle(flint, |vars|)
    requires i < |vars| && vars[i].value == v.id && forall j | 0 <= j < i :: vars[j].value != v.id
    ensures EvalValue(vars, v, flint).Some?
    ensures forall m :: Coef(EvalValue(vars, v, flint).value, m) == if m == UnitMono(|vars|, i) then 1.0 else 0.0
  {
    var k := VarIndex(vars, v.id);
    assert k == i;
  }

  /** The operand evaluations of a two-operand instruction value that is no variable. */
  predicate IsBinary(vars: seq<RuntimeVar>, v: Value, op: ValueOp)
  {
    VarIndex(vars, v.id) == |vars| && v.def.InstValue? && v.def.op == op && |v.def.operands| == 2
  }

  /** Every other instruction, `mul` and `or` among them, falls back to the constant 1. */
  lemma EvalValueFallback(vars: seq<RuntimeVar>, v: Value, flint: Oracle)
    requires SoundOracle(flint, |vars|) && VarIndex(vars, v.id) == |vars| && v.def.InstValue?
    requires !IsArith(v.def.op) && !IsShift(v.def.op) && !IsBitwise(v.def.op)
    ensures EvalValue(vars, v, flint) == Some(One(|vars|))
  {
  }

  /** No node of the value tree stands for a runtime variable. */
  predicate VariableFree(vars: seq<RuntimeVar>, v: Value)
    decreases v
  {
    VarIndex(vars, v.id) == |vars| &&
    (v.def.InstValue? ==> forall k | 0 <= k < |v.def.operands| :: VariableFree(vars, v.def.operands[k]))
  }

  /** A value that mentions no runtime variable evaluates to a constant. */
  lemma {:induction false} EvalValueVariableFree(vars: seq<RuntimeVar>, v: Value, flint: Oracle)
    requires SoundOracle(flint, |vars|) && VariableFree(vars, v)
    ensures EvalValue(vars, v, flint).Some? ==> IsConst(EvalValue(vars, v, flint).value)
    decreases v
  {
    if v.def.InstValue? && |v.def.operands| == 2 {
      var args := v.def.operands;
      EvalValueVariableFree(vars, args[0], flint);
      EvalValueVariableFree(vars, args[1], flint);
    }
  }

  // ---------------------------------------------------------------------------
  // evaluateSCEV
  // ---------------------------------------------------------------------------

  /** The position of the first operand that is not a constant node, or `|ops|`. */
  function FirstNonConstant(ops: seq<Scev>): (k: nat)
    ensures k <= |ops|
    ensures k < |ops| ==> !ops[k].ScConstant?
    ensures forall j | 0 <= j < k :: ops[j].ScConstant?
  {
    if ops == [] then 0
    else if !ops[0].ScConstant? then 0
    else 1 + FirstNonConstant(ops[1..])
  }

  /**
   * What `evaluateSCEV` computes for `s` with the caller's polynomial
   * `acc`: the result and the caller's polynomial afterwards.
   */
  function EvalScev(vars: seq<RuntimeVar>, acc: Poly, s: Scev, flint: Oracle): (r: Option<(Poly, Poly)>)
    requires SoundOracle(flint, |vars|) && WellFormed(acc, |vars|)
    ensures r.Some? ==> WellFormed(r.value.0, |vars|) && WellFormed(r.value.1, |vars|)
    decreases s, 0
  {
    var n := |vars|;
    match s
    case Unknown(v) =>
      var p := EvalValue(vars, v, flint);
      if p.None? then None else Some((p.value, acc))
    case ScConstant(c) => if Int64(c) then Some((Const(n, IntQ(c)), acc)) else None
    case AddExpr(ops) => EvalSum(vars, acc, ops, 0, map[], flint)
    case MulExpr(ops) => EvalProduct(vars, acc, ops, 0, One(n), flint)
    case UDivExpr(lhs, rhs) =>
      var l := EvalScev(vars, acc, lhs, flint);
      if l.None? then None
      else DivideAccumulator(vars, EvalScev(vars, Mul(l.value.1, l.value.0, n), rhs, flint), flint)
    case Truncate(op) => EvalScev(vars, acc, op, flint)
    case ZeroExtend(op) => EvalScev(vars, acc, op, flint)
    case SignExtend(op) => EvalScev(vars, acc, op, flint)
    case MinMax(ops) =>
      if |ops| > 1 then
        var k := FirstNonConstant(ops);
        if k < |ops| then EvalScev(vars, acc, ops[k], flint) else Some((acc, acc))
      else if |ops| == 1 then EvalScev(vars, acc, ops[0], flint)
      else None
    case CouldNotCompute => Some((One(n), acc))
    case AddRec(_) => Some((acc, acc))
    case OtherScev => Some((acc, acc))
  }

  /**
   * The end of the udiv node: the caller's polynomial, already multiplied by
   * the left operand, is divided by the right operand's value (a zero one is
   * FLINT's abort), and the node itself is 1.
   */
  function DivideAccumulator(vars: seq<RuntimeVar>, q: Option<(Poly, Poly)>, flint: Oracle): (r: Option<(Poly, Poly)>)
    requires SoundOracle(flint, |vars|)
    requires q.Some? ==> WellFormed(q.value.0, |vars|) && WellFormed(q.value.1, |vars|)
    ensures r.Some? <==> q.Some? && q.value.0 != map[]
    ensures r.Some? ==>
              IsConst(r.value.0) && ConstValue(r.value.0, |vars|) == 1.0 &&
              WellFormed(r.value.1, |vars|) && IsQuotient(r.value.1, q.value.1, q.value.0, |vars|)
  {
    if q.None? || q.value.0 == map[] then None
    else
      var divisor, dividend := q.value.0, q.value.1;
      Some((One(|vars|), DividePoly(dividend, divisor, |vars|, flint(dividend, divisor))))
  }

  /** The add node from operand `i` on: `sum` so far, the caller's polynomial threaded through. */
  function EvalSum(vars: seq<RuntimeVar>, acc: Poly, ops: seq<Scev>, i: nat, sum: Poly, flint: Oracle): (r: Option<(Poly, Poly)>)
    requires SoundOracle(flint, |vars|) && WellFormed(acc, |vars|) && WellFormed(sum, |vars|) && i <= |ops|
    ensures r.Some? ==> WellFormed(r.value.0, |vars|) && WellFormed(r.value.1, |vars|)
    decreases ops, |ops| - i
  {
    if i == |ops| then Some((sum, acc))
    else
      var e := EvalScev(vars, acc, ops[i], flint);
      if e.None? then None
      else
        WellFormedPlus(sum, e.value.0, |vars|);
        EvalSum(vars, e.value.1, ops, i + 1, Plus(sum, e.value.0), flint)
  }

  /** The mul node from operand `i` on: `product` so far, the caller's polynomial threaded through. */
  function EvalProduct(vars: seq<RuntimeVar>, acc: Poly, ops: seq<Scev>, i: nat, product: Poly, flint: Oracle): (r: Option<(Poly, Poly)>)
    requires SoundOracle(flint, |vars|) && WellFormed(acc, |vars|) && WellFormed(product, |vars|) && i <= |ops|
    ensures r.Some? ==> WellFormed(r.value.0, |vars|) && WellFormed(r.value.1, |vars|)
    decreases ops, |ops| - i
  {
    if i == |ops| then Some((product, acc))
    else
      var e := EvalScev(vars, acc, ops[i], flint);
      if e.None? then None
      else EvalProduct(vars, e.value.1, ops, i + 1, Mul(product, e.value.0, |vars|), flint)
  }

  /** The node kinds that divide the caller's polynomial. */
  predicate NoUDiv(s: Scev)
    decreases s
  {
    match s
    case UDivExpr(_, _) => false
    case AddExpr(ops) => forall k | 0 <= k < |ops| :: NoUDiv(ops[k])
    case MulExpr(ops) => forall k | 0 <= k < |ops| :: NoUDiv(ops[k])
    case MinMax(ops) => forall k | 0 <= k < |ops| :: NoUDiv(ops[k])
    case AddRec(ops) => true
    case Truncate(op) => NoUDiv(op)
    case ZeroExtend(op) => NoUDiv(op)
    case SignExtend(op) => NoUDiv(op)
    case _ => true
  }

  /** Only a udiv node changes the caller's polynomial: without one it comes back as it went in. */
  lemma {:induction false} EvalScevKeepsAccumulator(vars: seq<RuntimeVar>, acc: Poly, s: Scev, flint: Oracle)
    requires SoundOracle(flint, |vars|) && WellFormed(acc, |vars|) && NoUDiv(s)
    ensures EvalScev(vars, acc, s, flint).Some? ==> EvalScev(vars, acc, s, flint).value.1 == acc
    decreases s, 0
  {
    match s
    case AddExpr(ops) => EvalSumKeepsAccumulator(vars, acc, ops, 0, map[], flint);
    case MulExpr(ops) => EvalProductKeepsAccumulator(vars, acc, ops, 0, One(|vars|), flint);
    case Truncate(op) => EvalScevKeepsAccumulator(vars, acc, op, flint);
    case ZeroExtend(op) => EvalScevKeepsAccumulator(vars, acc, op, flint);
    case SignExtend(op) => EvalScevKeepsAccumulator(vars, acc, op, flint);
    case MinMax(ops) =>
      if |ops| > 1 {
        var k := FirstNonConstant(ops);
        if k < |ops| {
          EvalScevKeepsAccumulator(vars, acc, ops[k], flint);
        }
      } else if |ops| == 1 {
        EvalScevKeepsAccumulator(vars, acc, ops[0], flint);
      }
    case _ =>
  }

  lemma {:induction false} EvalSumKeepsAccumulator(vars: seq<RuntimeVar>, acc: Poly, ops: seq<Scev>, i: nat, sum: Poly, flint: Oracle)
    requires SoundOracle(flint, |vars|) && WellFormed(acc, |vars|) && WellFormed(sum, |vars|) && i <= |ops|
    requires forall k | 0 <= k < |ops| :: NoUDiv(ops[k])
    ensures EvalSum(vars, acc, ops, i, sum, flint).Some? ==> EvalSum(vars, acc, ops, i, sum, flint).value.1 == acc
    decreases ops, |ops| - i
  {
    if i < |ops| {
      var e := EvalScev(vars, acc, ops[i], flint);
      EvalScevKeepsAccumulator(vars, acc, ops[i], flint);
      if e.Some? {
        WellFormedPlus(sum, e.value.0, |vars|);
        EvalSumKeepsAccumulator(vars, acc, ops, i + 1, Plus(sum, e.value.0), flint);
      }
    }
  }

  lemma {:induction false} EvalProductKeepsAccumulator(vars: seq<RuntimeVar>, acc: Poly, ops: seq<Scev>, i: nat, product: Poly, flint: Oracle)
    requires SoundOracle(flint, |vars|) && WellFormed(acc, |vars|) && WellFormed(product, |vars|) && i <= |ops|
    requires forall k | 0 <= k < |ops| :: NoUDiv(ops[k])
    ensures EvalProduct(vars, acc, ops, i, product, flint).Some? ==> EvalProduct(vars, acc, ops, i, product, flint).value.1 == acc
    decreases ops, |ops| - i
  {
    if i < |ops| {
      var e := EvalScev(vars, acc, ops[i], flint);
      EvalScevKeepsAccumulator(vars, acc, ops[i], flint);
      if e.Some? {
        EvalProductKeepsAccumulator(vars, acc, ops, i + 1, Mul(product, e.value.0, |vars|), flint);
      }
    }
  }

  /**
   * The udiv quirk: the node itself evaluates to 1, while the caller's
   * polynomial is multiplied by the left operand and then divided by the
   * right one; with operands that leave it alone, it becomes (acc · l) / r,
   * and a zero right operand is FLINT's abort.
   */
  lemma EvalScevUDiv(vars: seq<RuntimeVar>, acc: Poly, lhs: Scev, rhs: Scev, flint: Oracle)
    requires SoundOracle(flint, |vars|) && WellFormed(acc, |vars|) && NoUDiv(lhs) && NoUDiv(rhs)
    requires EvalScev(vars, acc, lhs, flint).Some?
    ensures var n := |vars|;
      var accL := Mul(acc, EvalScev(vars, acc, lhs, flint).value.0, n);
      var q := EvalScev(vars, accL, rhs, flint);
      var out := EvalScev(vars, acc, UDivExpr(lhs, rhs), flint);
      (out.Some? <==> q.Some? && q.value.0 != map[]) &&
      (out.Some? ==> IsConst(out.value.0) && ConstValue(out.value.0, n) == 1.0 && IsQuotient(out.value.1, accL, q.value.0, n))
  {
    var n := |vars|;
    EvalScevKeepsAccumulator(vars, acc, lhs, flint);
    var l := EvalScev(vars, acc, lhs, flint).value.0;
    EvalScevKeepsAccumulator(vars, Mul(acc, l, n), rhs, flint);
  }

  /**
   * The nodes that hand back the caller's polynomial: an AddRec, any kind
   * the evaluator does not know, and a min/max whose operands are all
   * constants. A could-not-compute node gives 1.
   */
  lemma EvalScevReturnsAccumulator(vars: seq<RuntimeVar>, acc: Poly, s: Scev, flint: Oracle)
    requires SoundOracle(flint, |vars|) && WellFormed(acc, |vars|)
    requires s.AddRec? || s.OtherScev? || (s.MinMax? && |s.ops| > 1 && forall k | 0 <= k < |s.ops| :: s.ops[k].ScConstant?)
    ensures EvalScev(vars, acc, s, flint) == Some((acc, acc))
  {
    if s.MinMax? {
      assert FirstNonConstant(s.ops) == |s.ops|;
    }
  }

  /** A min/max with several operands is its first non-constant operand. */
  lemma EvalScevMinMax(vars: seq<RuntimeVar>, acc: Poly, s: Scev, k: nat, flint: Oracle)
    requires SoundOracle(flint, |vars|) && WellFormed(acc, |vars|) && s.MinMax?
    requires |s.ops| > 1 && k < |s.ops| && !s.ops[k].ScConstant? && forall j | 0 <= j < k :: s.ops[j].ScConstant?
    ensures EvalScev(vars, acc, s, flint) == EvalScev(vars, acc, s.ops[k], flint)
  {
    var f := FirstNonConstant(s.ops);
    assert f == k by {
      assert !(f < k) && !(k < f);
    }
    assert EvalScev(vars, acc, s, flint) == EvalScev(vars, acc, s.ops[f], flint);
  }

  /**
   * The node kinds whose result never depends on a value or on the caller's
   * polynomial: constants, could-not-compute, udiv (always 1) and the
   * arithmetic over them.
   */
  predicate ConstantScev(s: Scev)
    decreases s
  {
    match s
    case ScConstant(_) => true
    case CouldNotCompute => true
    case UDivExpr(_, _) => true
    case AddExpr(ops) => forall k | 0 <= k < |ops| :: ConstantScev(ops[k])
    case MulExpr(ops) => forall k | 0 <= k < |ops| :: ConstantScev(ops[k])
    case Truncate(op) => ConstantScev(op)
    case ZeroExtend(op) => ConstantScev(op)
    case SignExtend(op) => ConstantScev(op)
    case MinMax(ops) => (|ops| == 1 || FirstNonConstant(ops) < |ops|) && forall k | 0 <= k < |ops| :: ConstantScev(ops[k])
    case _ => false
  }

  /** Such an expression evaluates to a constant, whatever the caller's polynomial. */
  lemma {:induction false} EvalScevConstant(vars: seq<RuntimeVar>, acc: Poly, s: Scev, flint: Oracle)
    requires SoundOracle(flint, |vars|) && WellFormed(acc, |vars|) && ConstantScev(s)
    ensures EvalScev(vars, acc, s, flint).Some? ==> IsConst(EvalScev(vars, acc, s, flint).value.0)
    decreases s, 0
  {
    match s
    case AddExpr(ops) => EvalSumConstant(vars, acc, ops, 0, map[], flint);
    case MulExpr(ops) => EvalProductConstant(vars, acc, ops, 0, One(|vars|), flint);
    case Truncate(op) => EvalScevConstant(vars, acc, op, flint);
    case ZeroExtend(op) => EvalScevConstant(vars, acc, op, flint);
    case SignExtend(op) => EvalScevConstant(vars, acc, op, flint);
    case MinMax(ops) =>
      if |ops| > 1 {
        EvalScevConstant(vars, acc, ops[FirstNonConstant(ops)], flint);
      } else {
        EvalScevConstant(vars, acc, ops[0], flint);
      }
    case _ =>
  }

  lemma {:induction false} EvalSumConstant(vars: seq<RuntimeVar>, acc: Poly, ops: seq<Scev>, i: nat, sum: Poly, flint: Oracle)
    requires SoundOracle(flint, |vars|) && WellFormed(acc, |vars|) && WellFormed(sum, |vars|) && i <= |ops|
    requires IsConst(sum) && forall k | 0 <= k < |ops| :: ConstantScev(ops[k])
    ensures EvalSum(vars, acc, ops, i, sum, flint).Some? ==> IsConst(EvalSum(vars, acc, ops, i, sum, flint).value.0)
    decreases ops, |ops| - i
  {
    if i < |ops| {
      var e := EvalScev(vars, acc, ops[i], flint);
      EvalScevConstant(vars, acc, ops[i], flint);
      if e.Some? {
        WellFormedPlus(sum, e.value.0, |vars|);
        EvalSumConstant(vars, e.value.1, ops, i + 1, Plus(sum, e.value.0), flint);
      }
    }
  }

  lemma {:induction false} EvalProductConstant(vars: seq<RuntimeVar>, acc: Poly, ops: seq<Scev>, i: nat, product: Poly, flint: Oracle)
    requires SoundOracle(flint, |vars|) && WellFormed(acc, |vars|) && WellFormed(product, |vars|) && i <= |ops|
    requires IsConst(product) && forall k | 0 <= k < |ops| :: ConstantScev(ops[k])
    ensures EvalProduct(vars, acc, ops, i, product, flint).Some? ==> IsConst(EvalProduct(vars, acc, ops, i, product, flint).value.0)
    decreases ops, |ops| - i
  {
    if i < |ops| {
      var e := EvalScev(vars, acc, ops[i], flint);
      EvalScevConstant(vars, acc, ops[i], flint);
      if e.Some? {
        MulConstants(product, e.value.0, |vars|);
        EvalProductConstant(vars, e.value.1, ops, i + 1, Mul(product, e.value.0, |vars|), flint);
      }
    }
  }

  /** A `ConstantInt` that is no runtime variable is the constant polynomial of its value. */
  lemma EvalValueConstant(vars: seq<RuntimeVar>, v: Value, flint: Oracle)
    requires SoundOracle(flint, |vars|) && VarIndex(vars, v.id) == |vars| && v.def.ConstantIntValue?
    requires Int64(v.def.value)
    ensures EvalValue(vars, v, flint) == Some(Const(|vars|, IntQ(v.def.value)))
  {
  }

  /**
   * The leaves and the transparent nodes of `evaluateSCEV`: a constant is its
   * value, trunc/zext/sext are their operand, could-not-compute is 1 and an
   * unknown is `evaluateValue` of its value; none touches the caller's polynomial.
   */
  lemma EvalScevLeaves(vars: seq<RuntimeVar>, acc: Poly, s: Scev, flint: Oracle)
    requires SoundOracle(flint, |vars|) && WellFormed(acc, |vars|)
    ensures s.ScConstant? && Int64(s.value) ==> EvalScev(vars, acc, s, flint) == Some((Const(|vars|, IntQ(s.value)), acc))
    ensures s.Truncate? || s.ZeroExtend? || s.SignExtend? ==> EvalScev(vars, acc, s, flint) == EvalScev(vars, acc, s.op, flint)
    ensures s.CouldNotCompute? ==> EvalScev(vars, acc, s, flint) == Some((One(|vars|), acc))
    ensures s.Unknown? && EvalValue(vars, s.v, flint).Some? ==>
              EvalScev(vars, acc, s, flint) == Some((EvalValue(vars, s.v, flint).value, acc))
  {
  }

  /** Every operand evaluates without crashing and holds no udiv node. */
  predicate Evaluable(vars: seq<RuntimeVar>, acc: Poly, ops: seq<Scev>, flint: Oracle)
    requires SoundOracle(flint, |vars|) && WellFormed(acc, |vars|)
  {
    forall k | 0 <= k < |ops| :: NoUDiv(ops[k]) && EvalScev(vars, acc, ops[k], flint).Some?
  }

  /** The values of `ops`, each evaluated against the same caller's polynomial. */
  function Operands(vars: seq<RuntimeVar>, acc: Poly, ops: seq<Scev>, flint: Oracle): (r: seq<Poly>)
    requires SoundOracle(flint, |vars|) && WellFormed(acc, |vars|)
    requires Evaluable(vars, acc, ops, flint)
    ensures |r| == |ops|
    ensures forall k | 0 <= k < |ops| :: r[k] == EvalScev(vars, acc, ops[k], flint).value.0 && WellFormed(r[k], |vars|)
  {
    seq(|ops|, k requires 0 <= k < |ops| => EvalScev(vars, acc, ops[k], flint).value.0)
  }

  /** The sum of the coefficients of monomial `m` in `ps`. */
  function CoefTotal(ps: seq<Poly>, m: Mono): real {
    if ps == [] then 0.0 else Coef(ps[0], m) + CoefTotal(ps[1..], m)
  }

  /** `ps` multiplied into `p`, first to last. */
  function ProductAll(p: Poly, ps: seq<Poly>, n: nat): (r: Poly)
    requires WellFormed(p, n) && forall k | 0 <= k < |ps| :: WellFormed(ps[k], n)
    ensures WellFormed(r, n)
    decreases |ps|
  {
    if ps == [] then p else ProductAll(Mul(p, ps[0], n), ps[1..], n)
  }

  /**
   * An add node without udiv inside: its coefficients are the sums of its
   * operands' coefficients, and the caller's polynomial comes back unchanged.
   */
  lemma EvalScevAdd(vars: seq<RuntimeVar>, acc: Poly, s: Scev, flint: Oracle)
    requires SoundOracle(flint, |vars|) && WellFormed(acc, |vars|)
    requires s.AddExpr? && Evaluable(vars, acc, s.ops, flint)
    ensures var r := EvalScev(vars, acc, s, flint);
            r.Some? && r.value.1 == acc &&
            forall m :: Coef(r.value.0, m) == CoefTotal(Operands(vars, acc, s.ops, flint), m)
  {
    var os := Operands(vars, acc, s.ops, flint);
    EvalSumTotal(vars, acc, s.ops, 0, map[], flint);
    assert os[0..] == os;
  }

  lemma {:induction false} EvalSumTotal(vars: seq<RuntimeVar>, acc: Poly, ops: seq<Scev>, i: nat, sum: Poly, flint: Oracle)
    requires SoundOracle(flint, |vars|) && WellFormed(acc, |vars|) && WellFormed(sum, |vars|) && i <= |ops|
    requires Evaluable(vars, acc, ops, flint)
    ensures var r := EvalSum(vars, acc, ops, i, sum, flint);
            r.Some? && r.value.1 == acc &&
            forall m :: Coef(r.value.0, m) == Coef(sum, m) + CoefTotal(Operands(vars, acc, ops, flint)[i..], m)
    decreases |ops| - i, 1
  {
    if i == |ops| {
      assert Operands(vars, acc, ops, flint)[i..] == [];
    } else {
      EvalSumRest(vars, acc, ops, i, sum, flint);
    }
  }

  lemma {:induction false} EvalSumRest(vars: seq<RuntimeVar>, acc: Poly, ops: seq<Scev>, i: nat, sum: Poly, flint: Oracle)
    requires SoundOracle(flint, |vars|) && WellFormed(acc, |vars|) && WellFormed(sum, |vars|) && i < |ops|
    requires Evaluable(vars, acc, ops, flint)
    ensures var r := EvalSum(vars, acc, ops, i, sum, flint);
            r.Some? && r.value.1 == acc &&
            forall m :: Coef(r.value.0, m) == Coef(sum, m) + CoefTotal(Operands(vars, acc, ops, flint)[i..], m)
    decreases |ops| - i, 0
  {
    var os := Operands(vars, acc, ops, flint);
    EvalSumStep(vars, acc, ops, i, sum, flint);
    EvalSumTotal(vars, acc, ops, i + 1, Plus(sum, os[i]), flint);
  }

  /**
   * One step of the add loop: operand `i` keeps the caller's polynomial, so
   * the loop goes on with `os[i]` added in, as the sum does.
   */
  lemma EvalSumStep(vars: seq<RuntimeVar>, acc: Poly, ops: seq<Scev>, i: nat, sum: Poly, flint: Oracle)
    requires SoundOracle(flint, |vars|) && WellFormed(acc, |vars|) && WellFormed(sum, |vars|) && i < |ops|
    requires Evaluable(vars, acc, ops, flint)
    ensures var os := Operands(vars, acc, ops, flint);
            var sum' := Plus(sum, os[i]);
            WellFormed(sum', |vars|) &&
            EvalSum(vars, acc, ops, i, sum, flint) == EvalSum(vars, acc, ops, i + 1, sum', flint) &&
            forall m :: Coef(sum, m) + CoefTotal(os[i..], m) == Coef(sum', m) + CoefTotal(os[i + 1..], m)
  {
    var os := Operands(vars, acc, ops, flint);
    EvalScevKeepsAccumulator(vars, acc, ops[i], flint);
    WellFormedPlus(sum, os[i], |vars|);
    assert os[i..][0] == os[i] && os[i..][1..] == os[i + 1..];
  }

  /**
   * A mul node without udiv inside: the product, from 1, of its operands'
   * values, and the caller's polynomial comes back unchanged.
   */
  lemma EvalScevMul(vars: seq<RuntimeVar>, acc: Poly, s: Scev, flint: Oracle)
    requires SoundOracle(flint, |vars|) && WellFormed(acc, |vars|)
    requires s.MulExpr? && Evaluable(vars, acc, s.ops, flint)
    ensures EvalScev(vars, acc, s, flint) ==
            Some((ProductAll(One(|vars|), Operands(vars, acc, s.ops, flint), |vars|), acc))
  {
    var os := Operands(vars, acc, s.ops, flint);
    EvalProductAll(vars, acc, s.ops, 0, One(|vars|), flint);
    assert os[0..] == os;
  }

  /**
   * One step of the mul loop: operand `i` keeps the caller's polynomial, so
   * the loop goes on with `ps[i]` multiplied in, as the fold does.
   */
  lemma EvalProductStep(vars: seq<RuntimeVar>, acc: Poly, ops: seq<Scev>, i: nat, product: Poly, flint: Oracle)
    requires SoundOracle(flint, |vars|) && WellFormed(acc, |vars|) && WellFormed(product, |vars|) && i < |ops|
    requires Evaluable(vars, acc, ops, flint)
    ensures var os := Operands(vars, acc, ops, flint);
            var product' := Mul(product, os[i], |vars|);
            WellFormed(product', |vars|) &&
            EvalProduct(vars, acc, ops, i, product, flint) == EvalProduct(vars, acc, ops, i + 1, product', flint) &&
            ProductAll(product, os[i..], |vars|) == ProductAll(product', os[i + 1..], |vars|)
  {
    var os := Operands(vars, acc, ops, flint);
    EvalScevKeepsAccumulator(vars, acc, ops[i], flint);
    assert os[i..][0] == os[i] && os[i..][1..] == os[i + 1..];
  }

  lemma {:induction false} EvalProductAll(vars: seq<RuntimeVar>, acc: Poly, ops: seq<Scev>, i: nat, product: Poly, flint: Oracle)
    requires SoundOracle(flint, |vars|) && WellFormed(acc, |vars|) && WellFormed(product, |vars|) && i <= |ops|
    requires Evaluable(vars, acc, ops, flint)
    ensures EvalProduct(vars, acc, ops, i, product, flint) ==
            Some((ProductAll(product, Operands(vars, acc, ops, flint)[i..], |vars|), acc))
    decreases |ops| - i, 1
  {
    if i == |ops| {
      assert Operands(vars, acc, ops, flint)[i..] == [];
    } else {
      EvalProductRest(vars, acc, ops, i, product, flint);
    }
  }

  lemma {:induction false} EvalProductRest(vars: seq<RuntimeVar>, acc: Poly, ops: seq<Scev>, i: nat, product: Poly, flint: Oracle)
    requires SoundOracle(flint, |vars|) && WellFormed(acc, |vars|) && WellFormed(product, |vars|) && i < |ops|
    requires Evaluable(vars, acc, ops, flint)
    ensures EvalProduct(vars, acc, ops, i, product, flint) ==
            Some((ProductAll(product, Operands(vars, acc, ops, flint)[i..], |vars|), acc))
    decreases |ops| - i, 0
  {
    var os := Operands(vars, acc, ops, flint);
    EvalProductStep(vars, acc, ops, i, product, flint);
    EvalProductAll(vars, acc, ops, i + 1, Mul(product, os[i], |vars|), flint);
  }

  // ---------------------------------------------------------------------------
  // The walks themselves
  // ---------------------------------------------------------------------------

  /**
   * `evaluateValue`: look the value up among the runtime variables, then
   * evaluate its operands recursively. Callable where the specification
   * says the source does not crash.
   */
  method EvaluateValue(vars: seq<RuntimeVar>, v: Value, flint: Oracle) returns (r: Poly)
    requires SoundOracle(flint, |vars|) && EvalValue(vars, v, flint).Some?
    ensures r == EvalValue(vars, v, flint).value
    decreases v
  {
    var n := |vars|;
    var i := 0;
    while i < n
      invariant 0 <= i <= n
      invariant forall j | 0 <= j < i :: vars[j].value != v.id
    {
      if vars[i].value == v.id {
        assert VarIndex(vars, v.id) == i;
        return Var(n, i);
      }
      i := i + 1;
    }
    assert VarIndex(vars, v.id) == n;
    match v.def
    case ConstantIntValue(c) =>
      r := Const(n, IntQ(c));
    case InstValue(op, args) =>
      if IsArith(op) {
        var a := EvaluateValue(vars, args[0], flint);
        var b := EvaluateValue(vars, args[1], flint);
        r := ArithNode(op, a, b, n, flint).value;
      } else if IsShift(op) {
        var amount := EvaluateValue(vars, args[1], flint);
        if IsConst(amount) {
          var a := EvaluateValue(vars, args[0], flint);
          r := ShiftPoly(op, a, ShiftFactor(Numerator(ConstValue(amount, n))).value, n);
        } else {
          r := One(n);
        }
      } else if IsBitwise(op) {
        var a := EvaluateValue(vars, args[0], flint);
        var b := EvaluateValue(vars, args[1], flint);
        if IsConst(a) && IsConst(b) {
          var x, y := Numerator(ConstValue(a, n)), Numerator(ConstValue(b, n));
          r := Const(n, IntQ(if op == AndOp then BitAnd64(x, y) else BitXor64(x, y)));
        } else {
          r := One(n);
        }
      } else {
        r := One(n);
      }
  }

  /**
   * `evaluateSCEV`: `acc` is the caller's polynomial, passed by reference in
   * the source; `accOut` is what it holds afterwards.
   */
  method EvaluateScev(vars: seq<RuntimeVar>, acc: Poly, s: Scev, flint: Oracle) returns (r: Poly, accOut: Poly)
    requires SoundOracle(flint, |vars|) && WellFormed(acc, |vars|) && EvalScev(vars, acc, s, flint).Some?
    ensures (r, accOut) == EvalScev(vars, acc, s, flint).value
    decreases s, 1
  {
    var n := |vars|;
    match s
    case Unknown(v) =>
      r := EvaluateValue(vars, v, flint);
      accOut := acc;
    case ScConstant(c) =>
      r, accOut := Const(n, IntQ(c)), acc;
    case AddExpr(ops) =>
      r, accOut := SumOperands(vars, acc, ops, flint);
    case MulExpr(ops) =>
      r, accOut := MultiplyOperands(vars, acc, ops, flint);
    case UDivExpr(lhs, rhs) =>
      var l, acc1 := EvaluateScev(vars, acc, lhs, flint);
      var acc2 := Mul(acc1, l, n);
      var q, acc3 := EvaluateScev(vars, acc2, rhs, flint);
      r, accOut := One(n), DividePoly(acc3, q, n, flint(acc3, q));
      assert (r, accOut) == DivideAccumulator(vars, Some((q, acc3)), flint).value;
    case Truncate(op) =>
      r, accOut := EvaluateScev(vars, acc, op, flint);
    case ZeroExtend(op) =>
      r, accOut := EvaluateScev(vars, acc, op, flint);
    case SignExtend(op) =>
      r, accOut := EvaluateScev(vars, acc, op, flint);
    case MinMax(ops) =>
      r, accOut := MinMaxOperand(vars, acc, ops, flint);
    case CouldNotCompute =>
      r, accOut := One(n), acc;
    case AddRec(_) =>
      r, accOut := acc, acc;
    case OtherScev =>
      r, accOut := acc, acc;
  }

  /** The add node: a zero polynomial plus each operand in turn. */
  method SumOperands(vars: seq<RuntimeVar>, acc: Poly, ops: seq<Scev>, flint: Oracle) returns (r: Poly, accOut: Poly)
    requires SoundOracle(flint, |vars|) && WellFormed(acc, |vars|) && EvalSum(vars, acc, ops, 0, map[], flint).Some?
    ensures (r, accOut) == EvalSum(vars, acc, ops, 0, map[], flint).value
    decreases ops, 0
  {
    r, accOut := map[], acc;
    var i := 0;
    while i < |ops|
      invariant 0 <= i <= |ops| && WellFormed(r, |vars|) && WellFormed(accOut, |vars|)
      invariant EvalSum(vars, accOut, ops, i, r, flint) == EvalSum(vars, acc, ops, 0, map[], flint)
    {
      assert EvalScev(vars, accOut, ops[i], flint).Some?;
      var e, acc1 := EvaluateScev(vars, accOut, ops[i], flint);
      WellFormedPlus(r, e, |vars|);
      assert EvalSum(vars, accOut, ops, i, r, flint) == EvalSum(vars, acc1, ops, i + 1, Plus(r, e), flint);
      r, accOut := Plus(r, e), acc1;
      i := i + 1;
    }
  }

  /** The mul node: the constant 1 times each operand in turn. */
  method MultiplyOperands(vars: seq<RuntimeVar>, acc: Poly, ops: seq<Scev>, flint: Oracle) returns (r: Poly, accOut: Poly)
    requires SoundOracle(flint, |vars|) && WellFormed(acc, |vars|) && EvalProduct(vars, acc, ops, 0, One(|vars|), flint).Some?
    ensures (r, accOut) == EvalProduct(vars, acc, ops, 0, One(|vars|), flint).value
    decreases ops, 0
  {
    r, accOut := One(|vars|), acc;
    var i := 0;
    while i < |ops|
      invariant 0 <= i <= |ops| && WellFormed(r, |vars|) && WellFormed(accOut, |vars|)
      invariant EvalProduct(vars, accOut, ops, i, r, flint) == EvalProduct(vars, acc, ops, 0, One(|vars|), flint)
    {
      assert EvalScev(vars, accOut, ops[i], flint).Some?;
      var e, acc1 := EvaluateScev(vars, accOut, ops[i], flint);
      assert EvalProduct(vars, accOut, ops, i, r, flint) == EvalProduct(vars, acc1, ops, i + 1, Mul(r, e, |vars|), flint);
      r, accOut := Mul(r, e, |vars|), acc1;
      i := i + 1;
    }
  }

  /** The min/max node: its only operand, or the first operand that is not a constant node. */
  method MinMaxOperand(vars: seq<RuntimeVar>, acc: Poly, ops: seq<Scev>, flint: Oracle) returns (r: Poly, accOut: Poly)
    requires SoundOracle(flint, |vars|) && WellFormed(acc, |vars|) && EvalScev(vars, acc, MinMax(ops), flint).Some?
    ensures (r, accOut) == EvalScev(vars, acc, MinMax(ops), flint).value
    decreases ops, 0
  {
    if |ops| > 1 {
      var k := 0;
      while k < |ops|
        invariant 0 <= k <= |ops|
        invariant forall j | 0 <= j < k :: ops[j].ScConstant?
      {
        if !ops[k].ScConstant? {
          assert FirstNonConstant(ops) == k;
          r, accOut := EvaluateScev(vars, acc, ops[k], flint);
          return;
        }
        k := k + 1;
      }
      assert FirstNonConstant(ops) == |ops|;
      r, accOut := acc, acc;
    } else {
      r, accOut := EvaluateScev(vars, acc, ops[0], flint);
    }
  }
}
