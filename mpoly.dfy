/**
 * Rational-coefficient multivariate polynomials: the value behind `crel_mpoly`.
 *
 * A polynomial over `n` variables is a finite map from exponent vectors (one
 * natural number per variable) to non-zero rational coefficients; an absent
 * monomial has coefficient 0. FLINT keeps the terms in a sorted array; the order
 * is not part of this model.
 */
module Mpoly {
  import opened Rationals

  /** Exponent vector of a monomial: entry i is the power of variable x_i. */
  type Mono = seq<nat>

  /** The non-zero terms of a polynomial. */
  type Poly = map<Mono, Q>

  predicate NonZero(p: Poly) { forall m | m in p :: p[m] != 0.0 }

  /** Canonical polynomial over `n` variables: right-length exponents, no zero terms. */
  predicate WellFormed(p: Poly, n: nat) { NonZero(p) && forall m | m in p :: |m| == n }

  function Coef(p: Poly, m: Mono): Q { if m in p then p[m] else 0.0 }

  /** Two canonical polynomials with the same coefficients are the same map. */
  lemma CoefExt(a: Poly, b: Poly)
    requires NonZero(a) && NonZero(b)
    requires forall m :: Coef(a, m) == Coef(b, m)
    ensures a == b
  {
    forall m | m in a ensures m in b && a[m] == b[m] {
      assert Coef(a, m) == Coef(b, m);
    }
    forall m | m in b ensures m in a {
      assert Coef(a, m) == Coef(b, m);
    }
    assert a.Keys == b.Keys;
  }

  // ---------------------------------------------------------------------------
  // Monomials
  // ---------------------------------------------------------------------------

  function ZeroMono(n: nat): (m: Mono)
    ensures |m| == n && forall i | 0 <= i < n :: m[i] == 0
  {
    seq(n, _ => 0)
  }

  predicate IsZeroMono(m: Mono) { forall i | 0 <= i < |m| :: m[i] == 0 }

  /**
   * Exponent vector of x_i over `n` variables. An index outside 0..n-1 leaves
   * every exponent 0, so it denotes the constant monomial.
   */
  function UnitMono(n: nat, i: nat): (m: Mono)
    ensures |m| == n
    ensures forall j | 0 <= j < n :: m[j] == (if j == i then 1 else 0)
  {
    seq(n, j => if j == i then 1 else 0)
  }

  function MonoAdd(u: Mono, v: Mono): (w: Mono)
    requires |u| == |v|
    ensures |w| == |u| && forall i | 0 <= i < |u| :: w[i] == u[i] + v[i]
  {
    seq(|u|, i requires 0 <= i < |u| => u[i] + v[i])
  }

  /** Lexicographic order on exponent vectors; it fixes the term picked next by `Times`. */
  predicate LexLe(u: Mono, v: Mono)
    decreases |u|
  {
    |u| == 0 || (|v| != 0 && (u[0] < v[0] || (u[0] == v[0] && LexLe(u[1..], v[1..]))))
  }

  lemma {:induction false} LexTotal(u: Mono, v: Mono)
    ensures LexLe(u, v) || LexLe(v, u)
    decreases |u|
  {
    if |u| != 0 && |v| != 0 && u[0] == v[0] {
      LexTotal(u[1..], v[1..]);
    }
  }

  lemma {:induction false} LexAntisymmetric(u: Mono, v: Mono)
    requires LexLe(u, v) && LexLe(v, u)
    ensures u == v
    decreases |u|
  {
    if |u| != 0 {
      LexAntisymmetric(u[1..], v[1..]);
      assert u == [u[0]] + u[1..] && v == [v[0]] + v[1..];
    }
  }

  lemma {:induction false} LexTransitive(u: Mono, v: Mono, w: Mono)
    requires LexLe(u, v) && LexLe(v, w)
    ensures LexLe(u, w)
    decreases |u|
  {
    if |u| != 0 && u[0] == v[0] && v[0] == w[0] {
      LexTransitive(u[1..], v[1..], w[1..]);
    }
  }

  predicate IsLeast(k: Mono, s: set<Mono>) { k in s && forall x | x in s :: LexLe(k, x) }

  lemma {:induction false} LeastExists(s: set<Mono>)
    requires s != {}
    ensures exists k :: IsLeast(k, s)
    decreases |s|
  {
    var x :| x in s;
    if s == {x} {
      assert LexLe(x, x) by { LexTotal(x, x); }
      assert IsLeast(x, s);
    } else {
      LeastExists(s - {x});
      var k :| IsLeast(k, s - {x});
      LexTotal(k, x);
      if LexLe(k, x) {
        assert IsLeast(k, s);
      } else {
        forall y | y in s ensures LexLe(x, y) {
          if y != x {
            LexTransitive(x, k, y);
          } else {
            LexTotal(x, x);
          }
        }
        assert IsLeast(x, s);
      }
    }
  }

  /** The lexicographically least monomial of a non-empty set. */
  function Least(s: set<Mono>): (k: Mono)
    requires s != {}
    ensures IsLeast(k, s)
  {
    LeastExists(s);
    assert forall k1, k2 | IsLeast(k1, s) && IsLeast(k2, s) :: k1 == k2 by {
      forall k1, k2 | IsLeast(k1, s) && IsLeast(k2, s) ensures k1 == k2 {
        LexAntisymmetric(k1, k2);
      }
    }
    var k :| IsLeast(k, s);
    k
  }

  // ---------------------------------------------------------------------------
  // Constants and variables
  // ---------------------------------------------------------------------------

  /** FLINT's `fmpq_mpoly_is_fmpq`: no term mentions a variable. */
  predicate IsConst(p: Poly) { forall m | m in p :: IsZeroMono(m) }

  /** The value of a constant polynomial (`fmpq_mpoly_get_fmpq`). */
  function ConstValue(p: Poly, n: nat): Q { Coef(p, ZeroMono(n)) }

  function Const(n: nat, c: Q): (p: Poly)
    ensures WellFormed(p, n) && IsConst(p)
    ensures ConstValue(p, n) == c
    ensures forall m | m != ZeroMono(n) :: Coef(p, m) == 0.0
  {
    if c == 0.0 then map[] else map[ZeroMono(n) := c]
  }

  /** A constant polynomial over `n` variables is determined by its value. */
  lemma ConstOfValue(p: Poly, n: nat)
    requires WellFormed(p, n) && IsConst(p)
    ensures p == Const(n, ConstValue(p, n))
  {
    forall m ensures Coef(p, m) == Coef(Const(n, ConstValue(p, n)), m) {
      if m in p {
        assert m == ZeroMono(n);
      }
    }
    CoefExt(p, Const(n, ConstValue(p, n)));
  }

  /** Only the zero polynomial is a constant of value 0. */
  lemma ConstZero(p: Poly, n: nat)
    requires WellFormed(p, n) && IsConst(p)
    ensures ConstValue(p, n) == 0.0 <==> p == map[]
  {
    ConstOfValue(p, n);
  }

  /**
   * `setVarCoeff(i, c)`: the coefficient of x_i becomes c and nothing else changes;
   * a zero coefficient removes the term, as FLINT keeps no zero terms.
   */
  function WithVarCoeff(p: Poly, n: nat, i: nat, c: Q): (r: Poly)
    ensures Coef(r, UnitMono(n, i)) == c
    ensures forall m | m != UnitMono(n, i) :: Coef(r, m) == Coef(p, m)
    ensures WellFormed(p, n) ==> WellFormed(r, n)
  {
    if c == 0.0 then p - {UnitMono(n, i)} else p[UnitMono(n, i) := c]
  }

  /** The polynomial 1·x_i over `n` variables. */
  function Var(n: nat, i: nat): (r: Poly)
    requires i < n
    ensures WellFormed(r, n) && !IsConst(r)
    ensures forall m :: Coef(r, m) == (if m == UnitMono(n, i) then 1.0 else 0.0)
  {
    var r := WithVarCoeff(map[], n, i, 1.0);
    assert UnitMono(n, i) in r && UnitMono(n, i)[i] == 1;
    r
  }

  // ---------------------------------------------------------------------------
  // Ring operations
  // ---------------------------------------------------------------------------

  function Plus(a: Poly, b: Poly): (r: Poly)
    ensures NonZero(r) && r.Keys <= a.Keys + b.Keys
    ensures forall m :: Coef(r, m) == Coef(a, m) + Coef(b, m)
  {
    map m | m in a.Keys + b.Keys && Coef(a, m) + Coef(b, m) != 0.0 :: AddQ(Coef(a, m), Coef(b, m))
  }

  function Minus(a: Poly, b: Poly): (r: Poly)
    ensures NonZero(r) && r.Keys <= a.Keys + b.Keys
    ensures forall m :: Coef(r, m) == Coef(a, m) - Coef(b, m)
  {
    map m | m in a.Keys + b.Keys && Coef(a, m) - Coef(b, m) != 0.0 :: SubQ(Coef(a, m), Coef(b, m))
  }

  /** Multiplication by a scalar (`fmpq_mpoly_scalar_mul_si`). */
  function Scale(a: Poly, c: Q): (r: Poly)
    requires NonZero(a)
    ensures NonZero(r) && r.Keys <= a.Keys
    ensures forall m :: Coef(r, m) == Coef(a, m) * c
  {
    if c == 0.0 then map[] else map m | m in a :: MulQ(a[m], c)
  }

  /** Division by a non-zero scalar (`fmpq_mpoly_scalar_div_*`). */
  function DivScalar(a: Poly, c: Q): (r: Poly)
    requires NonZero(a) && c != 0.0
    ensures NonZero(r) && r.Keys == a.Keys
    ensures forall m :: Coef(r, m) == Coef(a, m) / c
  {
    map m | m in a :: DivQ(a[m], c)
  }

  lemma WellFormedPlus(a: Poly, b: Poly, n: nat)
    requires WellFormed(a, n) && WellFormed(b, n)
    ensures WellFormed(Plus(a, b), n) && WellFormed(Minus(a, b), n)
  {
  }

  lemma WellFormedScale(a: Poly, c: Q, n: nat)
    requires WellFormed(a, n)
    ensures WellFormed(Scale(a, c), n)
    ensures c != 0.0 ==> WellFormed(DivScalar(a, c), n)
  {
  }

  lemma MonoAddCancel(u: Mono, v1: Mono, v2: Mono)
    requires |u| == |v1| == |v2| && MonoAdd(u, v1) == MonoAdd(u, v2)
    ensures v1 == v2
  {
    assert forall i | 0 <= i < |u| :: v1[i] == MonoAdd(u, v1)[i] - u[i];
  }

  /** The product of a single term c·x^u with a polynomial. */
  function TermTimes(u: Mono, c: Q, b: Poly): (r: Poly)
    requires c != 0.0 && NonZero(b)
    requires forall v | v in b :: |v| == |u|
  {
    assert forall v1, v2 | v1 in b && v2 in b && MonoAdd(u, v1) == MonoAdd(u, v2) :: v1 == v2 by {
      forall v1, v2 | v1 in b && v2 in b && MonoAdd(u, v1) == MonoAdd(u, v2) ensures v1 == v2 {
        MonoAddCancel(u, v1, v2);
      }
    }
    map v | v in b :: MonoAdd(u, v) := MulQ(c, b[v])
  }

  /**
   * Each term x^v of `b` contributes c·b[v] at x^(u+v), and nothing else appears;
   * the product keeps the number of variables and has no zero terms.
   */
  lemma TermTimesCoef(u: Mono, c: Q, b: Poly)
    requires c != 0.0 && NonZero(b)
    requires forall v | v in b :: |v| == |u|
    ensures forall v | v in b :: Coef(TermTimes(u, c, b), MonoAdd(u, v)) == c * b[v]
    ensures forall w | w in TermTimes(u, c, b) :: exists v :: v in b && w == MonoAdd(u, v)
    ensures WellFormed(TermTimes(u, c, b), |u|)
  {
    var r := TermTimes(u, c, b);
    forall v | v in b ensures Coef(r, MonoAdd(u, v)) == c * b[v] {
      TermTimesAt(u, c, b, v);
    }
    forall w | w in r ensures |w| == |u| && r[w] != 0.0 {
      TermTimesKey(u, c, b, w);
      var v :| v in b && w == MonoAdd(u, v) && r[w] == MulQ(c, b[v]);
    }
  }

  /** Every term of the product comes from a term of `b`. */
  lemma TermTimesKey(u: Mono, c: Q, b: Poly, w: Mono)
    requires c != 0.0 && NonZero(b)
    requires forall v | v in b :: |v| == |u|
    requires w in TermTimes(u, c, b)
    ensures exists v :: v in b && w == MonoAdd(u, v) && TermTimes(u, c, b)[w] == MulQ(c, b[v])
  {
  }

  /** The term x^v of `b` lands at x^(u+v) with coefficient c·b[v]. */
  lemma TermTimesAt(u: Mono, c: Q, b: Poly, v: Mono)
    requires c != 0.0 && NonZero(b)
    requires forall v | v in b :: |v| == |u|
    requires v in b
    ensures MonoAdd(u, v) in TermTimes(u, c, b) && TermTimes(u, c, b)[MonoAdd(u, v)] == MulQ(c, b[v])
  {
    var w := MonoAdd(u, v);
    assert w in TermTimes(u, c, b);
    TermTimesKey(u, c, b, w);
    var v' :| v' in b && w == MonoAdd(u, v') && TermTimes(u, c, b)[w] == MulQ(c, b[v']);
    MonoAddCancel(u, v, v');
  }

  /**
   * The product of two polynomials (`fmpq_mpoly_mul`): the terms of `a` are
   * multiplied out one at a time, least monomial first.
   */
  function Times(a: Poly, b: Poly, n: nat): Poly
    requires WellFormed(a, n) && WellFormed(b, n)
    decreases |a|
  {
    if a == map[] then map[]
    else
      var u := Least(a.Keys);
      Plus(TermTimes(u, a[u], b), Times(a - {u}, b, n))
  }

  /** A product of polynomials over `n` variables is one too. */
  lemma {:induction false} TimesWellFormed(a: Poly, b: Poly, n: nat)
    requires WellFormed(a, n) && WellFormed(b, n)
    ensures WellFormed(Times(a, b, n), n)
    decreases |a|
  {
    if a != map[] {
      var u := Least(a.Keys);
      TermTimesCoef(u, a[u], b);
      TimesWellFormed(a - {u}, b, n);
    }
  }

  /** `multiply(poly)` as a value: the product, over the same variables. */
  function Mul(a: Poly, b: Poly, n: nat): (r: Poly)
    requires WellFormed(a, n) && WellFormed(b, n)
    ensures WellFormed(r, n)
  {
    TimesWellFormed(a, b, n);
    Times(a, b, n)
  }

  /** The product of two constants is the constant of the product of their values. */
  lemma MulConstants(a: Poly, b: Poly, n: nat)
    requires WellFormed(a, n) && WellFormed(b, n) && IsConst(a) && IsConst(b)
    ensures Mul(a, b, n) == Const(n, MulQ(ConstValue(b, n), ConstValue(a, n)))
  {
    var ca, cb := ConstValue(a, n), ConstValue(b, n);
    ConstOfValue(a, n);
    ConstOfValue(b, n);
    assert Mul(a, b, n) == Times(Const(n, ca), Const(n, cb), n);
    TimesConst(ca, Const(n, cb), n);
    ScaleConst(cb, ca, n);
  }

  lemma ScaleConst(c: Q, d: Q, n: nat)
    ensures Scale(Const(n, c), d) == Const(n, MulQ(c, d))
  {
    CoefExt(Scale(Const(n, c), d), Const(n, MulQ(c, d)));
  }

  /** `p` divides `s` exactly: some polynomial over the same variables times `p` is `s`. */
  ghost predicate Divides(p: Poly, s: Poly, n: nat)
    requires WellFormed(p, n)
  {
    exists q :: WellFormed(q, n) && Times(q, p, n) == s
  }

  /** Outcome of FLINT's `fmpq_mpoly_divides`: the exact quotient, if there is one. */
  datatype Quotient = Exact(q: Poly) | Inexact

  /** What `fmpq_mpoly_divides` promises about its answer for `s / p`. */
  ghost predicate QuotientSound(s: Poly, p: Poly, n: nat, out: Quotient)
    requires WellFormed(p, n)
  {
    match out
    case Exact(q) => WellFormed(q, n) && Times(q, p, n) == s
    case Inexact => !Divides(p, s, n)
  }

  /**
   * `r` is what dividing `s` by `p` yields: each coefficient divided by a
   * constant divisor; for a non-constant divisor, the exact quotient when
   * there is one and `s` itself otherwise.
   */
  ghost predicate IsQuotient(r: Poly, s: Poly, p: Poly, n: nat)
    requires WellFormed(r, n) && WellFormed(s, n) && WellFormed(p, n)
  {
    (IsConst(p) ==> ConstValue(p, n) != 0.0 && forall m :: Coef(r, m) == Coef(s, m) / ConstValue(p, n)) &&
    (!IsConst(p) && Divides(p, s, n) ==> Times(r, p, n) == s) &&
    (!IsConst(p) && !Divides(p, s, n) ==> r == s)
  }

  /**
   * `divideby(poly)`: a constant divisor divides every coefficient; a
   * non-constant one is replaced by the exact quotient when there is one,
   * and otherwise leaves the dividend as it is. `flint` is the answer of
   * `fmpq_mpoly_divides`, consulted only for a non-constant divisor. The zero
   * divisor is a constant zero, on which FLINT aborts.
   */
  function DividePoly(s: Poly, p: Poly, n: nat, flint: Quotient): (r: Poly)
    requires WellFormed(s, n) && WellFormed(p, n) && p != map[]
    requires !IsConst(p) ==> QuotientSound(s, p, n, flint)
    ensures WellFormed(r, n)
    ensures IsConst(p) ==> ConstValue(p, n) != 0.0 && forall m :: Coef(r, m) == Coef(s, m) / ConstValue(p, n)
    ensures !IsConst(p) && Divides(p, s, n) ==> Times(r, p, n) == s
    ensures !IsConst(p) && !Divides(p, s, n) ==> r == s
  {
    if IsConst(p) then
      ConstZero(p, n);
      DivScalar(s, ConstValue(p, n))
    else
      match flint
      case Exact(q) => q
      case Inexact => s
  }

  // ---------------------------------------------------------------------------
  // Max-join
  // ---------------------------------------------------------------------------

  /**
   * `maxjoin(q)`: a monomial of both keeps the larger coefficient, a monomial of
   * one side only keeps that side's coefficient (even a negative one).
   */
  function MaxJoinOf(a: Poly, b: Poly): (r: Poly)
    ensures r.Keys == a.Keys + b.Keys
  {
    map m | m in a.Keys + b.Keys ::
      if m in a && m in b then (if b[m] > a[m] then b[m] else a[m])
      else if m in a then a[m]
      else b[m]
  }

  /**
   * Every monomial of either side is present after the join: a shared one has
   * the larger coefficient, a one-sided one keeps its coefficient, even a negative one.
   */
  lemma MaxJoinCoefficients(a: Poly, b: Poly)
    ensures forall m | m in a && m in b :: MaxJoinOf(a, b)[m] == (if b[m] > a[m] then b[m] else a[m])
    ensures forall m | m in a && m !in b :: MaxJoinOf(a, b)[m] == a[m]
    ensures forall m | m !in a && m in b :: MaxJoinOf(a, b)[m] == b[m]
  {
  }

  /** `a` is below `b`: every term of `a` is in `b` with a coefficient at least as large. */
  predicate Below(a: Poly, b: Poly) { forall m | m in a :: m in b && a[m] <= b[m] }

  lemma WellFormedMaxJoin(a: Poly, b: Poly, n: nat)
    requires WellFormed(a, n) && WellFormed(b, n)
    ensures WellFormed(MaxJoinOf(a, b), n)
  {
  }

  /** Max-join is the least upper bound for `Below`. */
  lemma MaxJoinLeastUpperBound(a: Poly, b: Poly, c: Poly)
    ensures Below(a, MaxJoinOf(a, b)) && Below(b, MaxJoinOf(a, b))
    ensures Below(a, c) && Below(b, c) ==> Below(MaxJoinOf(a, b), c)
  {
  }

  lemma MaxJoinIdempotent(a: Poly)
    ensures MaxJoinOf(a, a) == a
  {
  }

  lemma MaxJoinZero(a: Poly)
    ensures MaxJoinOf(a, map[]) == a && MaxJoinOf(map[], a) == a
  {
  }

  lemma MaxJoinCommutative(a: Poly, b: Poly)
    ensures MaxJoinOf(a, b) == MaxJoinOf(b, a)
  {
  }

  lemma MaxJoinAssociative(a: Poly, b: Poly, c: Poly)
    ensures MaxJoinOf(MaxJoinOf(a, b), c) == MaxJoinOf(a, MaxJoinOf(b, c))
  {
  }

  /** Joining in one more term of the right-hand side: the step of the `maxjoin` loop. */
  lemma MaxJoinInsert(a: Poly, s: Poly, m: Mono, c: Q)
    requires m !in s
    ensures var t := MaxJoinOf(a, s);
      MaxJoinOf(a, s[m := c]) == if m in t && c <= t[m] then t else t[m := c]
  {
  }

  /** One step of the `maxjoin` loop: term `m` of `q` is joined in. */
  lemma MaxJoinStep(a: Poly, q: Poly, todo: set<Mono>, t: Poly, m: Mono)
    requires m in todo && todo <= q.Keys && t == MaxJoinOf(a, q - todo)
    ensures MaxJoinOf(a, q - (todo - {m})) == if m in t && q[m] <= t[m] then t else t[m := q[m]]
  {
    assert q - (todo - {m}) == (q - todo)[m := q[m]];
    MaxJoinInsert(a, q - todo, m, q[m]);
  }

  /** Joining something already below changes nothing. */
  lemma MaxJoinAbsorbs(a: Poly, b: Poly)
    requires Below(b, a)
    ensures MaxJoinOf(a, b) == a
  {
  }

  // ---------------------------------------------------------------------------
  // Algebraic laws
  // ---------------------------------------------------------------------------

  /** `add(p)` followed by `sub(p)` restores the polynomial. */
  lemma PlusMinus(a: Poly, b: Poly)
    requires NonZero(a)
    ensures Minus(Plus(a, b), b) == a
  {
    CoefExt(Minus(Plus(a, b), b), a);
  }

  lemma MulDivCancel(x: real, c: real)
    requires c != 0.0
    ensures (x * c) / c == x
  {
  }

  /** Multiplying then dividing by the same non-zero scalar restores the polynomial. */
  lemma ScaleDivScalar(a: Poly, c: Q)
    requires NonZero(a) && c != 0.0
    ensures DivScalar(Scale(a, c), c) == a
  {
    forall m ensures Coef(DivScalar(Scale(a, c), c), m) == Coef(a, m) {
      var x: real := Coef(a, m);
      var y: real := Coef(Scale(a, c), m);
      assert y == x * c;
      assert Coef(DivScalar(Scale(a, c), c), m) == y / c;
      MulDivCancel(x, c);
    }
    CoefExt(DivScalar(Scale(a, c), c), a);
  }

  lemma PlusCommutative(a: Poly, b: Poly)
    ensures Plus(a, b) == Plus(b, a)
  {
    CoefExt(Plus(a, b), Plus(b, a));
  }

  lemma PlusAssociative(a: Poly, b: Poly, c: Poly)
    ensures Plus(Plus(a, b), c) == Plus(a, Plus(b, c))
  {
    CoefExt(Plus(Plus(a, b), c), Plus(a, Plus(b, c)));
  }

  lemma PlusZero(a: Poly)
    requires NonZero(a)
    ensures Plus(a, map[]) == a && Plus(map[], a) == a
  {
    CoefExt(Plus(a, map[]), a);
    CoefExt(Plus(map[], a), a);
  }

  /** The constant term times a polynomial is a scalar multiple (`multiply` by a constant multiplier). */
  lemma TimesConst(c: Q, b: Poly, n: nat)
    requires WellFormed(b, n)
    ensures Times(Const(n, c), b, n) == Scale(b, c)
  {
    var a := Const(n, c);
    if c != 0.0 {
      var z := ZeroMono(n);
      assert a.Keys == {z};
      assert Least(a.Keys) == z;
      assert a - {z} == map[];
      var t := TermTimes(z, c, b);
      assert Times(a, b, n) == Plus(t, map[]);
      PlusZero(t);
      TermTimesZero(c, b, n);
    }
  }

  /** Multiplying by the constant monomial only scales the coefficients. */
  lemma TermTimesZero(c: Q, b: Poly, n: nat)
    requires WellFormed(b, n) && c != 0.0
    ensures TermTimes(ZeroMono(n), c, b) == Scale(b, c)
  {
    var z := ZeroMono(n);
    var t := TermTimes(z, c, b);
    TermTimesCoef(z, c, b);
    forall v | v in b ensures MonoAdd(z, v) == v {
    }
    forall m ensures Coef(t, m) == Coef(Scale(b, c), m) {
      if m in t {
        var v :| v in b && MonoAdd(z, v) == m;
      }
    }
    CoefExt(t, Scale(b, c));
  }

  lemma PlusExchange(x: Poly, y: Poly, z: Poly)
    ensures Plus(x, Plus(y, z)) == Plus(y, Plus(x, z))
  {
    CoefExt(Plus(x, Plus(y, z)), Plus(y, Plus(x, z)));
  }

  lemma TimesZero(b: Poly, n: nat)
    requires WellFormed(b, n)
    ensures Times(map[], b, n) == map[]
  {
  }

  // ---------------------------------------------------------------------------
  // The crel_mpoly object
  // ---------------------------------------------------------------------------

  /**
   * A polynomial held in a mutable object, as `crel_mpoly` holds its FLINT
   * polynomial; every operation updates `terms` in place.
   */
  class CrelMpoly {
    const numVars: nat
    var terms: Poly

    ghost predicate Valid()
      reads this
    {
      WellFormed(terms, numVars)
    }

    /** A new polynomial over `numVars` variables is zero. */
    constructor (numVars: nat)
      ensures Valid() && this.numVars == numVars && terms == map[]
    {
      this.numVars := numVars;
      terms := map[];
    }

    method Set(p: CrelMpoly)
      requires Valid() && p.Valid() && p.numVars == numVars
      modifies this
      ensures Valid() && terms == old(p.terms)
    {
      terms := p.terms;
    }

    /** Term-for-term equality. */
    predicate IsEqual(p: CrelMpoly)
      reads this, p
    {
      terms == p.terms
    }

    /** `setConstant(uint32_t)`. */
    method SetConstantUnsigned(c: int)
      requires Valid() && 0 <= c < 0x1_0000_0000
      modifies this
      ensures Valid() && terms == Const(numVars, IntQ(c))
      ensures IsConstant() && GetConstantNominator() == c && GetConstantDenominator() == 1
    {
      terms := Const(numVars, IntQ(c));
      IntegerParts(c);
    }

    /** `setConstant(int)`. */
    method SetConstant(c: int)
      requires Valid() && -0x8000_0000 <= c < 0x8000_0000
      modifies this
      ensures Valid() && terms == Const(numVars, IntQ(c))
      ensures IsConstant() && GetConstantNominator() == c && GetConstantDenominator() == 1
    {
      terms := Const(numVars, IntQ(c));
      IntegerParts(c);
    }

    /** `setConstant64bit(int64_t)`. */
    method SetConstant64bit(c: int)
      requires Valid() && -0x8000_0000_0000_0000 <= c < 0x8000_0000_0000_0000
      modifies this
      ensures Valid() && terms == Const(numVars, IntQ(c))
      ensures IsConstant() && GetConstantDenominator() == 1
      ensures SmallInt(c) ==> GetConstantNominator() == c
    {
      terms := Const(numVars, IntQ(c));
      IntegerParts(c);
    }

    /** `add(uint32_t)`. */
    method AddUnsigned(c: int)
      requires Valid() && 0 <= c < 0x1_0000_0000
      modifies this
      ensures Valid() && terms == Plus(old(terms), Const(numVars, IntQ(c)))
    {
      terms := Plus(terms, Const(numVars, IntQ(c)));
    }

    /** `add(int)`. */
    method AddSigned(c: int)
      requires Valid() && -0x8000_0000 <= c < 0x8000_0000
      modifies this
      ensures Valid() && terms == Plus(old(terms), Const(numVars, IntQ(c)))
    {
      terms := Plus(terms, Const(numVars, IntQ(c)));
    }

    method Add(p: CrelMpoly)
      requires Valid() && p.Valid() && p.numVars == numVars
      modifies this
      ensures Valid() && terms == Plus(old(terms), old(p.terms))
    {
      terms := Plus(terms, p.terms);
    }

    method Sub(p: CrelMpoly)
      requires Valid() && p.Valid() && p.numVars == numVars
      modifies this
      ensures Valid() && terms == Minus(old(terms), old(p.terms))
    {
      terms := Minus(terms, p.terms);
    }

    method Multiply(p: CrelMpoly)
      requires Valid() && p.Valid() && p.numVars == numVars
      modifies this
      ensures Valid() && terms == Times(old(terms), old(p.terms), numVars)
    {
      TimesWellFormed(terms, p.terms, numVars);
      terms := Times(terms, p.terms, numVars);
    }

    /** `multiply(long)`. */
    method MultiplyConstant(c: int)
      requires Valid() && -0x8000_0000_0000_0000 <= c < 0x8000_0000_0000_0000
      modifies this
      ensures Valid() && terms == Scale(old(terms), IntQ(c))
    {
      terms := Scale(terms, IntQ(c));
    }

    /** `divideby(long)`; FLINT aborts on a zero divisor. */
    method DivideByConstant(c: int)
      requires Valid() && -0x8000_0000_0000_0000 <= c < 0x8000_0000_0000_0000 && c != 0
      modifies this
      ensures Valid() && terms == DivScalar(old(terms), IntQ(c))
    {
      terms := DivScalar(terms, IntQ(c));
    }

    /**
     * `divideby(poly)`. The outcome of FLINT's exact-division routine for a
     * non-constant divisor is passed in as `flint`.
     */
    method DivideBy(p: CrelMpoly, flint: Quotient)
      requires Valid() && p.Valid() && p.numVars == numVars && p.terms != map[]
      requires !IsConst(p.terms) ==> QuotientSound(terms, p.terms, numVars, flint)
      modifies this
      ensures Valid() && terms == DividePoly(old(terms), old(p.terms), numVars, flint)
    {
      terms := DividePoly(terms, p.terms, numVars, flint);
    }

    method SetVarCoeff(i: nat, nominator: int)
      requires Valid() && i < 0x1_0000_0000 && -0x8000_0000 <= nominator < 0x8000_0000
      modifies this
      ensures Valid() && terms == WithVarCoeff(old(terms), numVars, i, IntQ(nominator))
    {
      terms := WithVarCoeff(terms, numVars, i, IntQ(nominator));
    }

    /**
     * `setVarCoeff(i, n, d)`: the coefficient of x_i becomes n/d. FLINT takes
     * the denominator as an unsigned 64-bit word, so a negative `d` counts as
     * 2^64 + d.
     */
    method SetVarCoeffRational(i: nat, nominator: int, denominator: int)
      requires Valid() && i < 0x1_0000_0000
      requires -0x8000_0000 <= nominator < 0x8000_0000 && -0x8000_0000 <= denominator < 0x8000_0000
      requires denominator != 0
      modifies this
      ensures Valid()
      ensures terms == WithVarCoeff(old(terms), numVars, i, DivQ(IntQ(nominator), IntQ(denominator % 0x1_0000_0000_0000_0000)))
      ensures denominator > 0 ==> terms == WithVarCoeff(old(terms), numVars, i, DivQ(IntQ(nominator), IntQ(denominator)))
    {
      terms := WithVarCoeff(terms, numVars, i, DivQ(IntQ(nominator), IntQ(denominator % 0x1_0000_0000_0000_0000)));
    }

    /**
     * `maxjoin(q)`: walks the terms of `q`; a term already present is overwritten
     * when q's coefficient is larger, a missing one is appended.
     */
    method MaxJoin(p: CrelMpoly)
      requires Valid() && p.Valid() && p.numVars == numVars
      modifies this
      ensures Valid() && terms == MaxJoinOf(old(terms), old(p.terms))
    {
      var q := p.terms;
      var t := terms;
      ghost var a := terms;
      var todo := q.Keys;
      assert t == MaxJoinOf(a, q - todo) by {
        assert q - todo == map[];
        MaxJoinZero(a);
      }
      while todo != {}
        invariant todo <= q.Keys
        invariant t == MaxJoinOf(a, q - todo)
        decreases |todo|
      {
        var m :| m in todo;
        ghost var t0 := t;
        if m in t {
          if q[m] > t[m] {
            t := t[m := q[m]];
          }
        } else {
          t := t[m := q[m]];
        }
        assert t == MaxJoinOf(a, q - (todo - {m})) by {
          MaxJoinStep(a, q, todo, t0, m);
        }
        todo := todo - {m};
      }
      assert q - todo == q;
      WellFormedMaxJoin(a, q, numVars);
      terms := t;
    }

    function IsConstant(): (b: bool)
      reads this
      ensures b <==> IsConst(terms)
    {
      IsConst(terms)
    }

    /**
     * `getConstantNominator`: the numerator of the constant in lowest terms.
     * FLINT aborts on a non-constant polynomial, and the raw `fmpz` word it
     * returns is the value only for a numerator in FLINT's small range.
     */
    function GetConstantNominator(): (num: int)
      requires Valid() && IsConst(terms) && SmallInt(Numerator(ConstValue(terms, numVars)))
      reads this
      ensures num as real == ConstValue(terms, numVars) * Denominator(ConstValue(terms, numVars)) as real
    {
      Numerator(ConstValue(terms, numVars))
    }

    /**
     * `getConstantDenominator`: the least positive integer that clears the
     * constant, stated, as for the numerator, for a denominator in FLINT's
     * small range.
     */
    function GetConstantDenominator(): (den: int)
      requires Valid() && IsConst(terms) && SmallInt(Denominator(ConstValue(terms, numVars)))
      reads this
      ensures den > 0 && Clears(ConstValue(terms, numVars), den)
      ensures forall k :: 0 < k < den ==> !Clears(ConstValue(terms, numVars), k)
    {
      Denominator(ConstValue(terms, numVars))
    }
  }

  /** `isEqual` holds exactly when the two polynomials agree on every coefficient. */
  lemma IsEqualCoefficients(a: CrelMpoly, b: CrelMpoly)
    requires a.Valid() && b.Valid()
    ensures a.IsEqual(b) <==> forall m :: Coef(a.terms, m) == Coef(b.terms, m)
  {
    if forall m :: Coef(a.terms, m) == Coef(b.terms, m) {
      CoefExt(a.terms, b.terms);
    }
  }
}
