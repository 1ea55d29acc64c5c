/**
 * The per-block loop multipliers of the Kofler et al. loop heuristics: every
 * block starts at 1 and is multiplied, loop by loop, by a contribution of
 * each loop that contains it.
 *
 * The source keeps the multipliers in a map of `unsigned` (Kofler13Analysis)
 * or of `int` (the passes). Both are kept here as their residue modulo 2^32:
 * `unsigned` arithmetic wraps that way, and two's-complement `int`
 * multiplication yields the same 32-bit pattern. `int mult = multiplier[bb]`
 * then reads the residue back as a signed value.
 */
module LoopMultipliers {
  import opened Ir
  import opened CounterFeatureSet

  /** A value as 32 bits: its residue modulo 2^32. */
  function Wrap32(x: int): (r: u32)
    ensures x % U32 == r
  {
    x % U32
  }

  /** A 32-bit pattern read as a two's-complement `int`. */
  function ToInt32(x: u32): (r: int)
    ensures -0x8000_0000 <= r < 0x8000_0000
    ensures Wrap32(r) == x
  {
    if x < 0x8000_0000 then x else x - U32
  }

  /** Multiplying after wrapping gives the same 32 bits as multiplying first. */
  lemma WrapMul(a: int, c: int)
    ensures Wrap32(Wrap32(a) * c) == Wrap32(a * c)
  {
    var q := a / U32;
    var r := a % U32;
    assert a == q * U32 + r;
    assert a * c == r * c + (q * c) * U32;
  }

  /** Which contribution a loop makes to the blocks it contains. */
  datatype Heuristic =
    | TripCountRule   // Kofler13Pass: from the small constant trip count
    | FinalIVRule     // Kofler13Analysis: `loopContribution`
    | Unroll100       // the legacy passes: always 100

  /** The contribution of a loop without a usable bound. */
  const DefaultLoopContribution: int := 100

  /**
   * `Kofler13Pass`'s contribution of loop `l` to block `b`: the trip count for
   * the exiting block, one less for the other blocks, 100 when the trip count
   * is unknown (0) or 1.
   */
  function TripCountContribution(l: Loop, b: nat): (r: int)
    ensures l.tripCount <= 1 ==> r == DefaultLoopContribution
    ensures l.tripCount > 1 && l.exiting == Some(b) ==> r == l.tripCount
    ensures l.tripCount > 1 && l.exiting != Some(b) ==> r == l.tripCount - 1
  {
    if l.tripCount > 1 && l.exiting == Some(b) then l.tripCount
    else if l.tripCount > 1 then l.tripCount - 1
    else DefaultLoopContribution
  }

  /**
   * `loopContribution`: for a canonical loop whose bounds are found and whose
   * final induction value is an integer constant of at most 32 bits, that
   * value; 100 otherwise.
   */
  function LoopContribution(l: Loop): (r: int)
    ensures (l.canonical && l.finalIV.Some? && l.finalIV.value.ConstInt? && l.finalIV.value.bitWidth <= 32) ==>
      r == l.finalIV.value.value
    ensures !(l.canonical && l.finalIV.Some? && l.finalIV.value.ConstInt? && l.finalIV.value.bitWidth <= 32) ==>
      r == DefaultLoopContribution
  {
    if l.canonical then
      match l.finalIV
      case Some(ConstInt(v, width)) => if width <= 32 then v else DefaultLoopContribution
      case _ => DefaultLoopContribution
    else DefaultLoopContribution
  }

  /** The contribution of loop `l` to its block `b` under heuristic `h`. */
  function Factor(h: Heuristic, l: Loop, b: nat): int {
    match h
    case TripCountRule => TripCountContribution(l, b)
    case FinalIVRule => LoopContribution(l)
    case Unroll100 => DefaultLoopContribution
  }

  /** The product of the contributions to block `b` of those of `loops` that contain it. */
  function Product(h: Heuristic, loops: seq<Loop>, b: nat): int {
    if loops == [] then 1
    else
      var last := loops[|loops| - 1];
      Product(h, loops[..|loops| - 1], b) * (if b in last.blocks then Factor(h, last, b) else 1)
  }

  /** LoopInfo lists each block of a loop once, and only blocks of the function. */
  predicate WellFormedLoop(l: Loop, n: nat) {
    Distinct(l.blocks) && forall k | 0 <= k < |l.blocks| :: l.blocks[k] < n
  }

  /** Every loop of every nest of `f` is well formed. */
  predicate WellFormedLoops(f: Function) {
    forall l | l in PreorderAll(f.loops) :: WellFormedLoop(l, |f.blocks|)
  }

  /** Step 1: every block's multiplier is 1. */
  method InitialMultipliers(n: nat) returns (m: seq<u32>)
    ensures |m| == n && forall b | 0 <= b < n :: m[b] == 1
  {
    m := [];
    for b := 0 to n
      invariant |m| == b && forall j | 0 <= j < b :: m[j] == 1
    {
      m := m + [1];
    }
  }

  /** One loop: each of its blocks, in turn, is multiplied by its contribution. */
  method ScaleLoop(m: seq<u32>, h: Heuristic, l: Loop) returns (r: seq<u32>)
    requires WellFormedLoop(l, |m|)
    ensures |r| == |m|
    ensures forall b | 0 <= b < |m| :: r[b] == Wrap32(m[b] * (if b in l.blocks then Factor(h, l, b) else 1))
  {
    r := m;
    for t := 0 to |l.blocks|
      invariant |r| == |m|
      invariant forall b | 0 <= b < |m| :: r[b] == Wrap32(m[b] * (if b in l.blocks[..t] then Factor(h, l, b) else 1))
    {
      var bb := l.blocks[t];
      assert bb !in l.blocks[..t];
      assert l.blocks[..t + 1] == l.blocks[..t] + [bb];
      r := r[bb := Wrap32(r[bb] * Factor(h, l, bb))];
    }
    assert l.blocks[..|l.blocks|] == l.blocks;
  }

  /** Several loops in order: each block ends up multiplied by the product of its contributions. */
  method ScaleLoops(m: seq<u32>, h: Heuristic, loops: seq<Loop>) returns (r: seq<u32>)
    requires forall l | l in loops :: WellFormedLoop(l, |m|)
    ensures |r| == |m|
    ensures forall b | 0 <= b < |m| :: r[b] == Wrap32(m[b] * Product(h, loops, b))
  {
    r := m;
    for i := 0 to |loops|
      invariant |r| == |m|
      invariant forall b | 0 <= b < |m| :: r[b] == Wrap32(m[b] * Product(h, loops[..i], b))
    {
      assert loops[..i + 1][..i] == loops[..i];
      var before := r;
      r := ScaleLoop(r, h, loops[i]);
      forall b | 0 <= b < |m|
        ensures r[b] == Wrap32(m[b] * Product(h, loops[..i + 1], b))
      {
        var p := Product(h, loops[..i], b);
        var g := if b in loops[i].blocks then Factor(h, loops[i], b) else 1;
        assert Product(h, loops[..i + 1], b) == p * g;
        WrapMul(m[b] * p, g);
        MulAssoc(m[b], p, g);
      }
    }
    assert loops[..|loops|] == loops;
  }

  /** Products over consecutive lists of loops multiply. */
  lemma {:induction false} ProductAppend(h: Heuristic, a: seq<Loop>, c: seq<Loop>, b: nat)
    ensures Product(h, a + c, b) == Product(h, a, b) * Product(h, c, b)
  {
    if c == [] {
      assert a + c == a;
    } else {
      var init := c[..|c| - 1];
      ProductAppend(h, a, init, b);
      assert (a + c)[..|a + c| - 1] == a + init;
      var g := if b in c[|c| - 1].blocks then Factor(h, c[|c| - 1], b) else 1;
      assert Product(h, a + c, b) == Product(h, a + init, b) * g;
      assert Product(h, c, b) == Product(h, init, b) * g;
      MulAssoc(Product(h, a, b), Product(h, init, b), g);
    }
  }

  lemma MulAssoc(x: int, y: int, z: int)
    ensures x * y * z == x * (y * z)
  {
  }

  /** A block that no loop contains keeps the multiplier 1. */
  lemma {:induction false} ProductOutside(h: Heuristic, loops: seq<Loop>, b: nat)
    requires forall l | l in loops :: b !in l.blocks
    ensures Product(h, loops, b) == 1
  {
    if loops != [] {
      ProductOutside(h, loops[..|loops| - 1], b);
    }
  }

  /** How many of `loops` contain block `b`. */
  function Enclosing(loops: seq<Loop>, b: nat): (r: nat)
    ensures r <= |loops|
  {
    if loops == [] then 0 else Enclosing(loops[..|loops| - 1], b) + (if b in loops[|loops| - 1].blocks then 1 else 0)
  }

  function Power(x: int, n: nat): int {
    if n == 0 then 1 else Power(x, n - 1) * x
  }

  /** Under the ×100 heuristic a block's multiplier is 100 to the number of loops containing it. */
  lemma {:induction false} Unroll100Product(loops: seq<Loop>, b: nat)
    ensures Product(Unroll100, loops, b) == Power(DefaultLoopContribution, Enclosing(loops, b))
  {
    if loops != [] {
      Unroll100Product(loops[..|loops| - 1], b);
    }
  }

  /**
   * Under the trip-count rule, a loop that runs a known number of times
   * t > 1 contributes t to its exiting block and t - 1 to its other blocks;
   * an unknown trip count contributes 100 to each.
   */
  lemma SingleLoopTripCount(l: Loop, b: nat)
    requires b in l.blocks
    ensures Product(TripCountRule, [l], b) == if l.tripCount <= 1 then 100 else if l.exiting == Some(b) then l.tripCount else l.tripCount - 1
  {
    assert [l][..0] == [];
  }
}
