/**
 * The parts of an LLVM module the analyses look at, as plain values.
 *
 * Pointer identity of LLVM objects becomes equality of `id` numbers: two
 * operands, values or callees denote the same LLVM object exactly when their
 * ids are equal. Blocks are named by their index in `Function.blocks`; the
 * entry block is block 0.
 */
module Ir {

  datatype Option<T> = None | Some(value: T)

  /** The classes of result type the classifiers distinguish. */
  datatype TypeKind = HalfTy | FloatTy | DoubleTy | IntegerTy | PointerTy | OtherTy

  /** An instruction operand. */
  datatype Operand =
    | InstRef(id: nat)                      // the result of another instruction
    | ArgRef(id: nat)                       // a function argument
    | ConstInt(value: int, bitWidth: nat)   // a `ConstantInt`, by its sign-extended value
    | OtherOperand(id: nat)                 // globals, floating-point constants, undef, ...

  /**
   * The function a direct call names: its global identifier, what
   * `__cxa_demangle` makes of its name (`None` when demangling fails), and the
   * name of the intrinsic it is (`None` for `not_intrinsic`).
   */
  datatype Callee = Callee(id: nat, identifier: string, demangled: Option<string>, intrinsic: Option<string>)

  /**
   * An instruction: opcode name, result type, the pointer address space of a
   * load or store, its operands (for a call, the call arguments only) and,
   * exactly for a direct call, the callee.
   */
  datatype Instruction = Instruction(
    id: nat,
    opcode: string,
    ty: TypeKind,
    addrSpace: nat,
    operands: seq<Operand>,
    callee: Option<Callee>)

  predicate IsCall(i: Instruction) { i.callee.Some? }
  /** A `call` whose callee is unknown is an indirect call. */
  predicate IsIndirectCall(i: Instruction) { i.opcode == "call" && i.callee.None? }
  predicate IsLoad(i: Instruction) { i.opcode == "load" }
  predicate IsStore(i: Instruction) { i.opcode == "store" }
  predicate IsGep(i: Instruction) { i.opcode == "getelementptr" }

  datatype Block = Block(instrs: seq<Instruction>, succs: seq<nat>)

  datatype Argument = Argument(id: nat, isPointer: bool)

  /** An expression tree for an LLVM value, as `evaluateValue` walks it. */
  datatype Value = Value(id: nat, def: ValueDef)

  datatype ValueDef =
    | ArgValue                                        // a function argument
    | ConstantIntValue(value: int)                    // a `ConstantInt`, sign-extended
    | InstValue(op: ValueOp, operands: seq<Value>)    // an instruction and its operand values
    | OtherValue                                      // any other non-instruction value

  /**
   * The operator classes `evaluateValue` tells apart: LLVM's `AddOperator`,
   * `SubOperator`, `SDivOperator`, `UDivOperator`, `ShlOperator` and
   * `LShrOperator`, the bitwise logic opcodes `and`, `xor` and `or`, and
   * every other instruction.
   */
  datatype ValueOp = AddOp | SubOp | SDivOp | UDivOp | ShlOp | LShrOp | AndOp | XorOp | OrOp | OtherOp

  /** A scalar-evolution expression, as `evaluateSCEV` walks it. */
  datatype Scev =
    | Unknown(v: Value)
    | ScConstant(value: int)
    | AddExpr(ops: seq<Scev>)
    | MulExpr(ops: seq<Scev>)
    | UDivExpr(lhs: Scev, rhs: Scev)
    | Truncate(op: Scev)
    | ZeroExtend(op: Scev)
    | SignExtend(op: Scev)
    | MinMax(ops: seq<Scev>)      // umax, smax, umin and smin alike
    | CouldNotCompute
    | AddRec(ops: seq<Scev>)
    | OtherScev

  /**
   * A natural loop with the facts the analyses ask LoopInfo and
   * ScalarEvolution for: its blocks (`getBlocks`, sub-loop blocks included),
   * `getSmallConstantTripCount` (0 when unknown), `getBackedgeTakenCount`,
   * `getExitingBlock`, `isCanonical`, the final induction value of
   * `LoopBounds::getBounds` (`None` when no bounds are found) and its sub-loops.
   */
  datatype Loop = Loop(
    id: nat,
    depth: nat,
    blocks: seq<nat>,
    tripCount: nat,
    backedge: Scev,
    exiting: Option<nat>,
    canonical: bool,
    finalIV: Option<Operand>,
    subLoops: seq<Loop>)

  /** `getLoopsInPreorder`: the loop itself, then each sub-loop's nest in order. */
  function Preorder(l: Loop): (r: seq<Loop>)
    ensures |r| >= 1 && r[0] == l
    decreases l, 1
  {
    [l] + PreorderAll(l.subLoops)
  }

  function PreorderAll(ls: seq<Loop>): seq<Loop>
    decreases ls, 0
  {
    if ls == [] then [] else Preorder(ls[0]) + PreorderAll(ls[1..])
  }

  /** Unrolling a forest in preorder distributes over concatenation. */
  lemma {:induction false} PreorderAllAppend(a: seq<Loop>, b: seq<Loop>)
    ensures PreorderAll(a + b) == PreorderAll(a) + PreorderAll(b)
  {
    if a == [] {
      assert a + b == b;
    } else {
      assert (a + b)[0] == a[0] && (a + b)[1..] == a[1..] + b;
      PreorderAllAppend(a[1..], b);
    }
  }

  /** The loops of `ls` and of all their nests, in preorder, one nest after another. */
  lemma PreorderAllSnoc(ls: seq<Loop>, i: nat)
    requires i < |ls|
    ensures PreorderAll(ls[..i + 1]) == PreorderAll(ls[..i]) + Preorder(ls[i])
  {
    assert ls[..i + 1] == ls[..i] + [ls[i]];
    PreorderAllAppend(ls[..i], [ls[i]]);
    assert PreorderAll([ls[i]]) == Preorder(ls[i]) + PreorderAll([]);
  }

  /** The nests of a prefix of the top-level loops are among the nests of all of them. */
  lemma PreorderAllPrefix(ls: seq<Loop>, i: nat)
    requires i <= |ls|
    ensures forall l | l in PreorderAll(ls[..i]) :: l in PreorderAll(ls)
  {
    assert ls == ls[..i] + ls[i..];
    PreorderAllAppend(ls[..i], ls[i..]);
  }

  /**
   * A function: `isClKernel` is the answer of `is_cl_kernel_function`, which
   * is not part of this model; `callingConv` is LLVM's calling-convention id;
   * `loops` are the top-level loops in LoopInfo order.
   */
  datatype Function = Function(
    name: string,
    isDeclaration: bool,
    isClKernel: bool,
    callingConv: nat,
    args: seq<Argument>,
    blocks: seq<Block>,
    loops: seq<Loop>)

  /** No call in `f` is indirect: `getCalledFunction` never answers null. */
  predicate NoIndirectCalls(f: Function) {
    forall b, k | 0 <= b < |f.blocks| && 0 <= k < |f.blocks[b].instrs| :: !IsIndirectCall(f.blocks[b].instrs[k])
  }

  /** Every successor index names a block of `f`. */
  predicate SuccessorsInRange(f: Function) {
    forall b, k | 0 <= b < |f.blocks| && 0 <= k < |f.blocks[b].succs| :: f.blocks[b].succs[k] < |f.blocks|
  }

  /** `x` fits a signed 64-bit integer, as `getSExtValue` requires. */
  predicate Int64(x: int) { -0x8000_0000_0000_0000 <= x < 0x8000_0000_0000_0000 }

  /** `s.find(sub) != npos`. */
  predicate Contains(s: string, sub: string) {
    exists k | 0 <= k <= |s| - |sub| :: OccursAt(s, sub, k)
  }

  predicate OccursAt(s: string, sub: string, k: int) {
    0 <= k <= |s| - |sub| && s[k..k + |sub|] == sub
  }

  /** `s.rfind(prefix, 0) == 0`. */
  predicate StartsWith(s: string, prefix: string) {
    |prefix| <= |s| && s[..|prefix|] == prefix
  }

  /** The decimal digits of `n`, as `to_string` writes a non-negative number. */
  function NatToString(n: nat): (s: string)
    ensures |s| >= 1
    ensures forall k :: 0 <= k < |s| ==> '0' <= s[k] <= '9'
  {
    if n < 10 then [Digit(n)] else NatToString(n / 10) + [Digit(n % 10)]
  }

  function Digit(d: nat): (c: char)
    requires d < 10
    ensures '0' <= c <= '9'
  {
    "0123456789"[d]
  }

  /** `to_string` of a signed number. */
  function IntToString(n: int): (s: string)
    ensures |s| >= 1
  {
    if n < 0 then "-" + NatToString(-n) else NatToString(n)
  }

  /** No element is listed twice. */
  predicate Distinct<T(==)>(s: seq<T>) {
    forall i, j | 0 <= i < j < |s| :: s[i] != s[j]
  }

  /** Splitting off the last element of a list without repeats. */
  lemma DistinctSnoc<T>(s: seq<T>)
    requires Distinct(s) && s != []
    ensures Distinct(s[..|s| - 1]) && s[|s| - 1] !in s[..|s| - 1]
    ensures forall x :: x in s <==> x in s[..|s| - 1] || x == s[|s| - 1]
  {
    var init := s[..|s| - 1];
    forall i | 0 <= i < |init| ensures init[i] != s[|s| - 1] {
      assert init[i] == s[i];
    }
    assert s == init + [s[|s| - 1]];
  }

  /** The instructions of `blocks`, block after block, in the order iterating a function visits them. */
  function Instrs(blocks: seq<Block>): seq<Instruction>
  {
    if blocks == [] then [] else Instrs(blocks[..|blocks| - 1]) + blocks[|blocks| - 1].instrs
  }

  /** How many times `x` occurs in `s`. */
  function Occurrences<T(==)>(s: seq<T>, x: T): (r: nat)
    ensures r <= |s|
  {
    if s == [] then 0 else Occurrences(s[..|s| - 1], x) + (if s[|s| - 1] == x then 1 else 0)
  }
}
