/**
 * Exact rational numbers, the coefficient domain of FLINT's fmpq_mpoly.
 *
 * A rational is a real number that some positive integer turns into an integer.
 * The subset type `Q` keeps that fact in the types, so every polynomial coefficient
 * in the model is provably a fraction; `Numerator` and `Denominator` give the canonical
 * form FLINT stores (positive denominator, lowest terms).
 */
module Rationals {

  predicate IsInt(x: real) { x == x.Floor as real }

  /** `d` is a positive integer that clears the denominator of `r`. */
  ghost predicate HasDen(r: real, d: int) { d > 0 && Clears(r, d) }

  /** Multiplying `r` by `k` gives an integer. */
  predicate Clears(r: real, k: int) { IsInt(r * k as real) }

  ghost predicate IsRational(r: real) { IsInt(r) || exists d: int :: HasDen(r, d) }

  type Q = r: real | IsRational(r) witness 0.0

  lemma SomeDen(x: Q) returns (d: int)
    ensures HasDen(x, d)
  {
    if IsInt(x) {
      d := 1;
      assert x * d as real == x;
    } else {
      assert IsRational(x);
      d :| HasDen(x, d);
    }
  }

  function IntQ(n: int): (r: Q)
    ensures r == n as real
  {
    n as real
  }

  lemma AddClosed(x: Q, y: Q)
    ensures IsRational(x + y)
  {
    var d1 := SomeDen(x);
    var d2 := SomeDen(y);
    var n1 := (x * d1 as real).Floor;
    var n2 := (y * d2 as real).Floor;
    assert (x + y) * (d1 * d2) as real == (x * d1 as real) * d2 as real + (y * d2 as real) * d1 as real;
    assert (x + y) * (d1 * d2) as real == (n1 * d2 + n2 * d1) as real;
    assert HasDen(x + y, d1 * d2);
  }

  lemma NegClosed(x: Q)
    ensures IsRational(0.0 - x)
  {
    var d := SomeDen(x);
    var n := (x * d as real).Floor;
    assert (0.0 - x) * d as real == (-n) as real;
    assert HasDen(0.0 - x, d);
  }

  lemma MulClosed(x: Q, y: Q)
    ensures IsRational(x * y)
  {
    var d1 := SomeDen(x);
    var d2 := SomeDen(y);
    var p1, p2 := x * d1 as real, y * d2 as real;
    assert IsInt(p1) && IsInt(p2);
    var n1, n2 := p1.Floor, p2.Floor;
    assert (x * y) * (d1 * d2) as real == p1 * p2 by {
      assert (d1 * d2) as real == d1 as real * d2 as real;
    }
    assert p1 * p2 == (n1 * n2) as real;
    assert HasDen(x * y, d1 * d2);
  }

  lemma DivClosed(x: Q, y: Q)
    requires y != 0.0
    ensures IsRational(x / y)
  {
    var d1 := SomeDen(x);
    var d2 := SomeDen(y);
    var n1 := (x * d1 as real).Floor;
    var n2 := (y * d2 as real).Floor;
    assert n2 != 0;
    var d := if n2 > 0 then d1 * n2 else -(d1 * n2);
    var n := if n2 > 0 then n1 * d2 else -(n1 * d2);
    assert x / y == (n1 as real / d1 as real) / (n2 as real / d2 as real);
    assert (x / y) * d as real == n as real;
    assert HasDen(x / y, d);
  }

  function AddQ(x: Q, y: Q): (r: Q)
    ensures r == x + y
  {
    AddClosed(x, y);
    x + y
  }

  function NegQ(x: Q): (r: Q)
    ensures r == 0.0 - x
  {
    NegClosed(x);
    0.0 - x
  }

  function SubQ(x: Q, y: Q): (r: Q)
    ensures r == x - y
  {
    AddQ(x, NegQ(y))
  }

  function MulQ(x: Q, y: Q): (r: Q)
    ensures r == x * y
  {
    MulClosed(x, y);
    x * y
  }

  function DivQ(x: Q, y: Q): (r: Q)
    requires y != 0.0
    ensures r == x / y
  {
    DivClosed(x, y);
    x / y
  }

  lemma DenExists(r: Q)
    ensures exists d :: HasDen(r, d)
  {
    var d := SomeDen(r);
  }

  /** Some denominator of `r`, fixed once and for all; bounds the search below. */
  ghost function DenBound(r: Q): (d: int)
    ensures HasDen(r, d)
  {
    DenExists(r);
    var d :| HasDen(r, d);
    d
  }

  /** The least denominator of `r` that is at least `d`, when none below `d` works. */
  function DenFrom(r: Q, d: int): (den: int)
    requires 0 < d
    requires forall k :: 0 < k < d ==> !Clears(r, k)
    ensures d <= den && HasDen(r, den)
    ensures forall k :: 0 < k < den ==> !Clears(r, k)
    decreases DenBound(r) - d
  {
    if Clears(r, d) then d
    else
      assert d != DenBound(r);
      DenFrom(r, d + 1)
  }

  /** The denominator FLINT stores for `r`: the least positive integer clearing it. */
  function Denominator(r: Q): (d: int)
    ensures HasDen(r, d)
    ensures forall k :: 0 < k < d ==> !Clears(r, k)
  {
    DenFrom(r, 1)
  }

  lemma ClearsInt(r: real, d: int)
    requires Clears(r, d)
    ensures (r * d as real).Floor as real == r * d as real
  {
  }

  /** The numerator that goes with `Denominator(r)`. */
  function Numerator(r: Q): (n: int)
    ensures n as real == r * Denominator(r) as real
  {
    var d := Denominator(r);
    ClearsInt(r, d);
    (r * d as real).Floor
  }

  /** An integer is stored with denominator 1 and itself as numerator. */
  lemma IntegerParts(n: int)
    ensures Denominator(IntQ(n)) == 1
    ensures Numerator(IntQ(n)) == n
  {
    assert Clears(IntQ(n), 1);
  }

  /** FLINT's small `fmpz` range: values stored inline rather than behind a pointer. */
  predicate SmallInt(n: int) { -0x3FFF_FFFF_FFFF_FFFF <= n <= 0x3FFF_FFFF_FFFF_FFFF }
}
