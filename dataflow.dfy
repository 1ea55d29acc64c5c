/**
 * Step 4 of `poly_crel_pass::eval_function`: the backward max-join dataflow
 * over the blocks of one function, for one feature.
 *
 * Blocks are numbered by their position in the function; `succs[b]` lists
 * the successors of block b. Every block starts with its own local
 * polynomial as input and the zero polynomial as output. A sweep visits the
 * blocks in order; a block with successors max-joins each successor's
 * current input into its output and then takes that output as its input.
 * Sweeps repeat until one changes no input.
 *
 * Termination: every coefficient ever stored is one of the finitely many
 * coefficients of the initial inputs, every monomial one of their
 * monomials, and outputs only grow; so the set of (block, monomial, value)
 * triples an output dominates is bounded, and after the first sweep every
 * sweep that changes an input strictly enlarges it.
 */
module Dataflow {
  import opened Rationals
  import opened Mpoly

  /** Every successor names a block. */
  predicate Edges(succs: seq<seq<nat>>) {
    forall b, k | 0 <= b < |succs| && 0 <= k < |succs[b]| :: succs[b][k] < |succs|
  }

  /** The coefficients of the initial inputs. */
  ghost function Coeffs(init: seq<Poly>): set<Q> {
    set b, m | 0 <= b < |init| && m in init[b] :: init[b][m]
  }

  /** The monomials of the initial inputs. */
  ghost function Monos(init: seq<Poly>): set<Mono> {
    set b, m | 0 <= b < |init| && m in init[b] :: m
  }

  /** The terms of `p` use only monomials of `ks` and coefficients of `vs`. */
  ghost predicate Within(p: Poly, vs: set<Q>, ks: set<Mono>) {
    forall m | m in p :: m in ks && p[m] in vs
  }

  /** The (block, monomial, value) triples that the polynomials of `out` dominate. */
  ghost function Pairs(out: seq<Poly>, vs: set<Q>, ks: set<Mono>): set<(int, Mono, Q)> {
    set b, m, v | 0 <= b < |out| && m in ks && v in vs && m in out[b] && v <= out[b][m] :: (b, m, v)
  }

  ghost function Universe(count: nat, vs: set<Q>, ks: set<Mono>): set<(int, Mono, Q)> {
    set b, m, v | 0 <= b < count && m in ks && v in vs :: (b, m, v)
  }

  lemma {:induction false} SubsetCard<T>(a: set<T>, b: set<T>)
    requires a <= b
    ensures |a| <= |b|
    decreases a
  {
    if a != {} {
      var x :| x in a;
      SubsetCard(a - {x}, b - {x});
    }
  }

  /** The initial inputs are within their own coefficients and monomials. */
  lemma InitWithin(init: seq<Poly>, n: nat)
    requires forall b | 0 <= b < |init| :: WellFormed(init[b], n)
    ensures Bounded(init, n, Coeffs(init), Monos(init))
  {
    forall b, m | 0 <= b < |init| && m in init[b]
      ensures m in Monos(init) && init[b][m] in Coeffs(init)
    {
    }
  }

  /** Max-join keeps the terms within the same monomials and coefficients. */
  lemma WithinMaxJoin(a: Poly, x: Poly, vs: set<Q>, ks: set<Mono>)
    requires Within(a, vs, ks) && Within(x, vs, ks)
    ensures Within(MaxJoinOf(a, x), vs, ks)
  {
    MaxJoinCoefficients(a, x);
  }

  /** Every polynomial of `s` is over `n` variables and within `vs` and `ks`. */
  ghost predicate Bounded(s: seq<Poly>, n: nat, vs: set<Q>, ks: set<Mono>) {
    forall c | 0 <= c < |s| :: WellFormed(s[c], n) && Within(s[c], vs, ks)
  }

  /** Each polynomial of `out'` is above the one at the same block of `out`. */
  ghost predicate Grown(out: seq<Poly>, out': seq<Poly>) {
    |out| == |out'| && forall c | 0 <= c < |out| :: Below(out[c], out'[c])
  }

  /** Every block with successors has its input equal to its output. */
  predicate Settled(input: seq<Poly>, output: seq<Poly>, succs: seq<seq<nat>>)
    requires |input| == |output| == |succs|
  {
    forall c | 0 <= c < |succs| && succs[c] != [] :: input[c] == output[c]
  }

  /** Each of the first `upto` blocks has its output above its successors' inputs. */
  ghost predicate Covers(input: seq<Poly>, output: seq<Poly>, succs: seq<seq<nat>>, upto: int)
    requires |input| == |output| == |succs| && Edges(succs) && upto <= |succs|
  {
    forall c, k | 0 <= c < upto && 0 <= k < |succs[c]| :: Below(input[succs[c][k]], output[c])
  }

  /** `d` counts the triples the polynomials of `out` dominate, which the universe bounds. */
  ghost predicate DomIs(out: seq<Poly>, vs: set<Q>, ks: set<Mono>, d: int, room: int) {
    d == |Pairs(out, vs, ks)| && room == |Universe(|out|, vs, ks)| && d <= room
  }

  /**
   * Raising the polynomials of `out` in the `Below` order keeps every
   * dominated triple, and the triples stay inside the universe; a strict
   * raise of one polynomial dominates a new triple.
   */
  lemma Progress(out: seq<Poly>, out': seq<Poly>, vs: set<Q>, ks: set<Mono>, d: int, room: int, strict: bool, b: int)
    returns (d': int)
    requires Grown(out, out') && DomIs(out, vs, ks, d, room)
    requires strict ==> 0 <= b < |out| && Within(out'[b], vs, ks) && out[b] != out'[b]
    ensures DomIs(out', vs, ks, d', room) && d <= d'
    ensures strict ==> d < d'
  {
    var small, large := Pairs(out, vs, ks), Pairs(out', vs, ks);
    assert small <= large;
    assert large <= Universe(|out'|, vs, ks);
    SubsetCard(small, large);
    SubsetCard(large, Universe(|out'|, vs, ks));
    d' := |large|;
    if strict {
      var p, p' := out[b], out'[b];
      var m := RaisedTerm(p, p');
      var t := (b, m, p'[m]);
      assert t in large;
      assert t !in small;
      SubsetCard(small, large - {t});
    }
  }

  /** A polynomial strictly above another has a term that is new or larger. */
  lemma RaisedTerm(p: Poly, p': Poly) returns (m: Mono)
    requires Below(p, p') && p != p'
    ensures m in p' && (m !in p || p[m] < p'[m])
  {
    if k :| k in p' && k !in p {
      return k;
    }
    assert p.Keys == p'.Keys;
    var k :| k in p && p[k] != p'[k];
    return k;
  }

  /**
   * The output of a block after its successor loop: its old output
   * max-joined with each successor's current input, in the order of `ss`.
   */
  function FoldJoin(o: Poly, input: seq<Poly>, ss: seq<nat>): Poly
    requires forall k | 0 <= k < |ss| :: ss[k] < |input|
    decreases |ss|, 1
  {
    if ss == [] then o else JoinLast(o, input, ss)
  }

  /** The last step of the fold: the fold of all but the last successor, joined with the last one's input. */
  function JoinLast(o: Poly, input: seq<Poly>, ss: seq<nat>): Poly
    requires ss != [] && forall k | 0 <= k < |ss| :: ss[k] < |input|
    decreases |ss|, 0
  {
    MaxJoinOf(FoldJoin(o, input, ss[..|ss| - 1]), input[ss[|ss| - 1]])
  }

  /**
   * The fold is above the old output and above every successor's input, and
   * it keeps to the variables, monomials and coefficients of its operands.
   */
  lemma {:induction false} FoldJoinBounds(o: Poly, input: seq<Poly>, ss: seq<nat>, n: nat, vs: set<Q>, ks: set<Mono>)
    requires forall k | 0 <= k < |ss| :: ss[k] < |input|
    requires WellFormed(o, n) && Within(o, vs, ks) && Bounded(input, n, vs, ks)
    ensures WellFormed(FoldJoin(o, input, ss), n) && Within(FoldJoin(o, input, ss), vs, ks)
    ensures Below(o, FoldJoin(o, input, ss))
    ensures forall k | 0 <= k < |ss| :: Below(input[ss[k]], FoldJoin(o, input, ss))
  {
    if ss != [] {
      var init, x := ss[..|ss| - 1], input[ss[|ss| - 1]];
      FoldJoinBounds(o, input, init, n, vs, ks);
      var f := FoldJoin(o, input, init);
      var r := MaxJoinOf(f, x);
      assert FoldJoin(o, input, ss) == JoinLast(o, input, ss) == r;
      MaxJoinLeastUpperBound(f, x, r);
      WellFormedMaxJoin(f, x, n);
      WithinMaxJoin(f, x, vs, ks);
      BelowTrans(o, f, r);
      forall k | 0 <= k < |ss|
        ensures Below(input[ss[k]], r)
      {
        if k < |init| {
          assert ss[k] == init[k];
          BelowTrans(input[ss[k]], f, r);
        }
      }
    }
  }

  lemma BelowTrans(a: Poly, b: Poly, c: Poly)
    requires Below(a, b) && Below(b, c)
    ensures Below(a, c)
  {
  }

  /** The inputs and outputs of every block, as the fixpoint loop keeps them. */
  datatype Sets = Sets(input: seq<Poly>, output: seq<Poly>)

  /**
   * The state after a sweep has visited blocks 0 to b - 1 in order: a block
   * with successors takes the fold of its successors' current inputs (some
   * of them already updated in this sweep) as both output and input; an
   * exit block is skipped.
   */
  function SweepTo(input: seq<Poly>, output: seq<Poly>, succs: seq<seq<nat>>, b: nat): (r: Sets)
    requires |input| == |output| == |succs| && Edges(succs) && b <= |succs|
    ensures |r.input| == |r.output| == |succs|
  {
    if b == 0 then Sets(input, output)
    else
      var s := SweepTo(input, output, succs, b - 1);
      if succs[b - 1] == [] then s
      else
        var j := FoldJoin(s.output[b - 1], s.input, succs[b - 1]);
        Sets(s.input[b - 1 := j], s.output[b - 1 := j])
  }

  /** The first `b` visits of a sweep leave the blocks from `b` on untouched. */
  lemma {:induction false} SweepToFrame(input: seq<Poly>, output: seq<Poly>, succs: seq<seq<nat>>, b: nat)
    requires |input| == |output| == |succs| && Edges(succs) && b <= |succs|
    ensures forall c | b <= c < |succs| ::
      SweepTo(input, output, succs, b).input[c] == input[c] && SweepTo(input, output, succs, b).output[c] == output[c]
  {
    if b > 0 {
      SweepToFrame(input, output, succs, b - 1);
      var s := SweepTo(input, output, succs, b - 1);
      var r := SweepTo(input, output, succs, b);
      forall c | b <= c < |succs|
        ensures r.input[c] == input[c] && r.output[c] == output[c]
      {
        assert r.input[c] == s.input[c] && r.output[c] == s.output[c];
      }
    }
  }

  /** A sweep never changes an exit block (one without successors). */
  lemma {:induction false} SweepToExits(input: seq<Poly>, output: seq<Poly>, succs: seq<seq<nat>>, b: nat)
    requires |input| == |output| == |succs| && Edges(succs) && b <= |succs|
    ensures forall c | 0 <= c < b && succs[c] == [] ::
      SweepTo(input, output, succs, b).input[c] == input[c] && SweepTo(input, output, succs, b).output[c] == output[c]
  {
    if b > 0 {
      SweepToExits(input, output, succs, b - 1);
      SweepToFrame(input, output, succs, b - 1);
      var s := SweepTo(input, output, succs, b - 1);
      var r := SweepTo(input, output, succs, b);
      forall c | 0 <= c < b && succs[c] == []
        ensures r.input[c] == input[c] && r.output[c] == output[c]
      {
        assert r.input[c] == s.input[c] && r.output[c] == s.output[c];
      }
    }
  }

  /** Visit `b - 1` of a sweep changes only block `b - 1`. */
  lemma SweepToStep(input: seq<Poly>, output: seq<Poly>, succs: seq<seq<nat>>, b: nat)
    requires |input| == |output| == |succs| && Edges(succs) && 0 < b <= |succs|
    ensures forall c | 0 <= c < |succs| && c != b - 1 ::
      SweepTo(input, output, succs, b).input[c] == SweepTo(input, output, succs, b - 1).input[c] &&
      SweepTo(input, output, succs, b).output[c] == SweepTo(input, output, succs, b - 1).output[c]
  {
  }

  /** Visit `b - 1` of a sweep folds into block `b - 1` from that block's original output. */
  lemma SweepToLast(input: seq<Poly>, output: seq<Poly>, succs: seq<seq<nat>>, b: nat)
    requires |input| == |output| == |succs| && Edges(succs) && 0 < b <= |succs| && succs[b - 1] != []
    ensures SweepTo(input, output, succs, b).input[b - 1] == SweepTo(input, output, succs, b).output[b - 1] ==
      FoldJoin(output[b - 1], SweepTo(input, output, succs, b - 1).input, succs[b - 1])
  {
    SweepToFrame(input, output, succs, b - 1);
  }

  /**
   * Every block with successors that the first `b` visits passed holds, as
   * input and output, the fold it took when it was visited.
   */
  lemma {:induction false} SweepToVisited(input: seq<Poly>, output: seq<Poly>, succs: seq<seq<nat>>, b: nat)
    requires |input| == |output| == |succs| && Edges(succs) && b <= |succs|
    ensures forall c {:trigger SweepTo(input, output, succs, b).input[c]} | 0 <= c < b && succs[c] != [] ::
      SweepTo(input, output, succs, b).input[c] == SweepTo(input, output, succs, b).output[c] ==
      FoldJoin(output[c], SweepTo(input, output, succs, c).input, succs[c])
  {
    if b > 0 {
      SweepToVisited(input, output, succs, b - 1);
      SweepToStep(input, output, succs, b);
      if succs[b - 1] != [] {
        SweepToLast(input, output, succs, b);
      }
    }
  }

  /** A sweep keeps the polynomials bounded and only grows the outputs. */
  lemma {:induction false} SweepToBounds(input: seq<Poly>, output: seq<Poly>, succs: seq<seq<nat>>, n: nat, vs: set<Q>, ks: set<Mono>, b: nat)
    requires |input| == |output| == |succs| && Edges(succs) && b <= |succs|
    requires Bounded(input, n, vs, ks) && Bounded(output, n, vs, ks)
    ensures Bounded(SweepTo(input, output, succs, b).input, n, vs, ks)
    ensures Bounded(SweepTo(input, output, succs, b).output, n, vs, ks)
    ensures Grown(output, SweepTo(input, output, succs, b).output)
  {
    if b > 0 {
      SweepToBounds(input, output, succs, n, vs, ks, b - 1);
      var s := SweepTo(input, output, succs, b - 1);
      if succs[b - 1] != [] {
        var j := FoldJoin(s.output[b - 1], s.input, succs[b - 1]);
        FoldJoinBounds(s.output[b - 1], s.input, succs[b - 1], n, vs, ks);
        BelowTrans(output[b - 1], s.output[b - 1], j);
        var r := SweepTo(input, output, succs, b);
        assert r == Sets(s.input[b - 1 := j], s.output[b - 1 := j]);
        forall c | 0 <= c < |succs|
          ensures WellFormed(r.input[c], n) && Within(r.input[c], vs, ks)
          ensures WellFormed(r.output[c], n) && Within(r.output[c], vs, ks)
          ensures Below(output[c], r.output[c])
        {
        }
      }
    }
  }

  /**
   * What a whole sweep does: polynomials stay bounded, outputs only grow,
   * exit blocks are kept, and every other block ends with input equal to
   * output. If no input changed, every block with successors is above its
   * successors' inputs. If some input changed and every block with
   * successors had input equal to output before, some output grew (`grew`).
   */
  lemma SweepFacts(input: seq<Poly>, output: seq<Poly>, succs: seq<seq<nat>>, n: nat, vs: set<Q>, ks: set<Mono>, settled: bool)
    returns (grew: nat)
    requires |input| == |output| == |succs| && Edges(succs)
    requires Bounded(input, n, vs, ks) && Bounded(output, n, vs, ks)
    requires settled ==> Settled(input, output, succs)
    ensures Bounded(SweepTo(input, output, succs, |succs|).input, n, vs, ks)
    ensures Bounded(SweepTo(input, output, succs, |succs|).output, n, vs, ks)
    ensures Grown(output, SweepTo(input, output, succs, |succs|).output)
    ensures forall c | 0 <= c < |succs| && succs[c] == [] ::
      SweepTo(input, output, succs, |succs|).input[c] == input[c] && SweepTo(input, output, succs, |succs|).output[c] == output[c]
    ensures Settled(SweepTo(input, output, succs, |succs|).input, SweepTo(input, output, succs, |succs|).output, succs)
    ensures settled && SweepTo(input, output, succs, |succs|).input != input ==>
      grew < |succs| && output[grew] != SweepTo(input, output, succs, |succs|).output[grew]
    ensures SweepTo(input, output, succs, |succs|).input == input ==>
      Covers(SweepTo(input, output, succs, |succs|).input, SweepTo(input, output, succs, |succs|).output, succs, |succs|)
  {
    var e := |succs|;
    var s := SweepTo(input, output, succs, e);
    SweepToFrame(input, output, succs, e);
    SweepToExits(input, output, succs, e);
    SweepToVisited(input, output, succs, e);
    SweepToBounds(input, output, succs, n, vs, ks, e);
    grew := 0;
    if s.input != input {
      var c :| 0 <= c < e && s.input[c] != input[c];
      grew := c;
    } else {
      forall c, k | 0 <= c < e && 0 <= k < |succs[c]|
        ensures Below(s.input[succs[c][k]], s.output[c])
      {
        SweepCovers(input, output, succs, n, vs, ks, c, k);
      }
    }
  }

  /**
   * When a whole sweep changed no input, block c's fold covers successor
   * `succs[c][k]`: the input that fold saw is the successor's final one.
   */
  lemma SweepCovers(input: seq<Poly>, output: seq<Poly>, succs: seq<seq<nat>>, n: nat, vs: set<Q>, ks: set<Mono>, c: nat, k: nat)
    requires |input| == |output| == |succs| && Edges(succs)
    requires Bounded(input, n, vs, ks) && Bounded(output, n, vs, ks)
    requires SweepTo(input, output, succs, |succs|).input == input
    requires c < |succs| && k < |succs[c]|
    ensures Below(SweepTo(input, output, succs, |succs|).input[succs[c][k]], SweepTo(input, output, succs, |succs|).output[c])
  {
    var e := |succs|;
    var s, pre, t := SweepTo(input, output, succs, e), SweepTo(input, output, succs, c), succs[c][k];
    SweepToFrame(input, output, succs, e);
    SweepToExits(input, output, succs, e);
    SweepToVisited(input, output, succs, e);
    SweepToFrame(input, output, succs, c);
    SweepToExits(input, output, succs, c);
    SweepToVisited(input, output, succs, c);
    SweepToBounds(input, output, succs, n, vs, ks, c);
    FoldJoinBounds(output[c], pre.input, succs[c], n, vs, ks);
    assert pre.input[t] == s.input[t];
  }

  /** The state after `k` whole sweeps, from the initial inputs and zero outputs. */
  function Sweeps(init: seq<Poly>, succs: seq<seq<nat>>, k: nat): (s: Sets)
    requires |init| == |succs| && Edges(succs)
    ensures |s.input| == |s.output| == |succs|
    decreases k, 1
  {
    if k == 0 then Sets(init, seq(|init|, _ => map[])) else SweepAgain(init, succs, k)
  }

  /** Sweep `k + 1` runs over the state sweep `k` left. */
  lemma SweepsStep(init: seq<Poly>, succs: seq<seq<nat>>, k: nat)
    requires |init| == |succs| && Edges(succs)
    ensures Sweeps(init, succs, k + 1) ==
      SweepTo(Sweeps(init, succs, k).input, Sweeps(init, succs, k).output, succs, |succs|)
  {
    assert Sweeps(init, succs, k + 1) == SweepAgain(init, succs, k + 1);
  }

  /** Sweep number `k`, over the state the sweeps before it left. */
  function SweepAgain(init: seq<Poly>, succs: seq<seq<nat>>, k: nat): (s: Sets)
    requires |init| == |succs| && Edges(succs) && k >= 1
    ensures |s.input| == |s.output| == |succs|
    decreases k, 0
  {
    var s := Sweeps(init, succs, k - 1);
    SweepTo(s.input, s.output, succs, |succs|)
  }

  /**
   * After any number of sweeps the polynomials are built from the initial
   * monomials and coefficients, exit blocks keep their initial input, and
   * after at least one sweep every block with successors has input equal to
   * output.
   */
  lemma {:induction false} SweepsFacts(init: seq<Poly>, succs: seq<seq<nat>>, n: nat, k: nat)
    requires |init| == |succs| && Edges(succs) && forall b | 0 <= b < |init| :: WellFormed(init[b], n)
    ensures Bounded(Sweeps(init, succs, k).input, n, Coeffs(init), Monos(init))
    ensures Bounded(Sweeps(init, succs, k).output, n, Coeffs(init), Monos(init))
    ensures forall c | 0 <= c < |succs| && succs[c] == [] :: Sweeps(init, succs, k).input[c] == init[c]
    ensures k >= 1 ==> Settled(Sweeps(init, succs, k).input, Sweeps(init, succs, k).output, succs)
  {
    if k == 0 {
      InitWithin(init, n);
    } else {
      SweepsFacts(init, succs, n, k - 1);
      var s := Sweeps(init, succs, k - 1);
      var _ := SweepFacts(s.input, s.output, succs, n, Coeffs(init), Monos(init), false);
    }
  }

  /** Sweep `k` changed no input, so the `while (inputSetHasChanged)` loop stops after it. */
  ghost predicate Stops(init: seq<Poly>, succs: seq<seq<nat>>, k: nat)
    requires |init| == |succs| && Edges(succs)
  {
    k >= 1 && Sweeps(init, succs, k).input == Sweeps(init, succs, k - 1).input
  }

  /** `k` is the number of sweeps the fixpoint loop runs: the first sweep that changes nothing. */
  ghost predicate FirstStop(init: seq<Poly>, succs: seq<seq<nat>>, k: nat)
    requires |init| == |succs| && Edges(succs)
  {
    Stops(init, succs, k) && forall j | 1 <= j < k :: !Stops(init, succs, j)
  }

  /** No sweep from the first to the one before `k` stops the loop, counted down from `k`. */
  ghost predicate NoStopBefore(init: seq<Poly>, succs: seq<seq<nat>>, k: nat)
    requires |init| == |succs| && Edges(succs)
  {
    k <= 1 || (NoStopBefore(init, succs, k - 1) && !Stops(init, succs, k - 1))
  }

  lemma {:induction false} NoStopBeforeAll(init: seq<Poly>, succs: seq<seq<nat>>, k: nat)
    requires |init| == |succs| && Edges(succs) && NoStopBefore(init, succs, k)
    ensures forall j | 1 <= j < k :: !Stops(init, succs, j)
  {
    if k > 1 {
      NoStopBeforeAll(init, succs, k - 1);
    }
  }

  /** `input` is what the fixpoint loop ends with, started from `init`. */
  ghost predicate Result(input: seq<Poly>, init: seq<Poly>, succs: seq<seq<nat>>) {
    |init| == |succs| && Edges(succs) &&
    exists k: nat :: FirstStop(init, succs, k) && input == Sweeps(init, succs, k).input
  }

  /** The loop stops after one number of sweeps only, so it has one result. */
  lemma ResultUnique(a: seq<Poly>, b: seq<Poly>, init: seq<Poly>, succs: seq<seq<nat>>)
    requires Result(a, init, succs) && Result(b, init, succs)
    ensures a == b
  {
    var ka: nat :| FirstStop(init, succs, ka) && a == Sweeps(init, succs, ka).input;
    var kb: nat :| FirstStop(init, succs, kb) && b == Sweeps(init, succs, kb).input;
    if ka < kb {
      assert false;
    } else if kb < ka {
      assert false;
    }
  }

  /** The number of (block, monomial, value) triples the outputs after `k` sweeps dominate. */
  ghost function Dominated(init: seq<Poly>, succs: seq<seq<nat>>, k: nat): int
    requires |init| == |succs| && Edges(succs)
  {
    |Pairs(Sweeps(init, succs, k).output, Coeffs(init), Monos(init))|
  }

  /** The number of triples there are to dominate. */
  ghost function Room(init: seq<Poly>): int {
    |Universe(|init|, Coeffs(init), Monos(init))|
  }

  /**
   * The termination argument of the fixpoint loop: a sweep never lowers the
   * number of dominated triples, which stays within the room, and a sweep
   * after the first one that changes an input raises it.
   */
  lemma SweepsProgress(init: seq<Poly>, succs: seq<seq<nat>>, n: nat, k: nat)
    requires |init| == |succs| && Edges(succs) && forall b | 0 <= b < |init| :: WellFormed(init[b], n)
    ensures Dominated(init, succs, k) <= Dominated(init, succs, k + 1) <= Room(init)
    ensures k >= 1 && !Stops(init, succs, k + 1) ==> Dominated(init, succs, k) < Dominated(init, succs, k + 1)
  {
    var vs, ks := Coeffs(init), Monos(init);
    var s, s' := Sweeps(init, succs, k), Sweeps(init, succs, k + 1);
    SweepsStep(init, succs, k);
    SweepsFacts(init, succs, n, k);
    var grew := SweepFacts(s.input, s.output, succs, n, vs, ks, k >= 1);
    var small := Pairs(s.output, vs, ks);
    assert small <= Universe(|s.output|, vs, ks);
    SubsetCard(small, Universe(|s.output|, vs, ks));
    var strict := k >= 1 && !Stops(init, succs, k + 1);
    var _ := Progress(s.output, s'.output, vs, ks, |small|, Room(init), strict, grew);
  }

  /**
   * The loop stops: some sweep from `k` on stops it. Each sweep after the
   * first that changes an input raises the number of dominated triples,
   * which the room bounds.
   */
  lemma StopsEventually(init: seq<Poly>, succs: seq<seq<nat>>, n: nat, k: nat) returns (last: nat)
    requires |init| == |succs| && Edges(succs) && forall b | 0 <= b < |init| :: WellFormed(init[b], n)
    requires k >= 1
    ensures k <= last && Stops(init, succs, last)
    decreases Room(init) - Dominated(init, succs, k - 1), if k == 1 then 1 else 0
  {
    SweepsProgress(init, succs, n, k - 1);
    if Stops(init, succs, k) {
      last := k;
    } else {
      last := StopsEventually(init, succs, n, k + 1);
    }
  }

  /**
   * When the loop stops after sweep `k`, every block is above each of its
   * successors: a block with successors has input equal to output, which
   * the last sweep raised above its successors' unchanged inputs.
   */
  lemma StopsCovers(init: seq<Poly>, succs: seq<seq<nat>>, n: nat, k: nat)
    requires |init| == |succs| && Edges(succs) && forall b | 0 <= b < |init| :: WellFormed(init[b], n)
    requires Stops(init, succs, k)
    ensures forall b, j | 0 <= b < |init| && 0 <= j < |succs[b]| ::
      Below(Sweeps(init, succs, k).input[succs[b][j]], Sweeps(init, succs, k).input[b])
  {
    var s := Sweeps(init, succs, k - 1);
    SweepsFacts(init, succs, n, k - 1);
    SweepsFacts(init, succs, n, k);
    var _ := SweepFacts(s.input, s.output, succs, n, Coeffs(init), Monos(init), false);
  }

  /**
   * The successor loop of one block: the output is max-joined with each
   * successor's input in turn.
   */
  method JoinSuccessors(output: Poly, input: seq<Poly>, ss: seq<nat>) returns (o: Poly)
    requires forall k | 0 <= k < |ss| :: ss[k] < |input|
    ensures o == FoldJoin(output, input, ss)
  {
    o := output;
    var k := 0;
    while k < |ss|
      invariant 0 <= k <= |ss|
      invariant o == FoldJoin(output, input, ss[..k])
    {
      assert ss[..k + 1][..k] == ss[..k];
      assert FoldJoin(output, input, ss[..k + 1]) == JoinLast(output, input, ss[..k + 1]) == MaxJoinOf(o, input[ss[k]]);
      o := MaxJoinOf(o, input[ss[k]]);
      k := k + 1;
    }
    assert ss[..k] == ss;
  }

  /**
   * One sweep over the blocks in order: blocks without successors are
   * skipped, every other block max-joins its successors' current inputs
   * into its output and takes that output as its input. It reports a
   * change exactly when some input changed.
   */
  method Sweep(input: seq<Poly>, output: seq<Poly>, succs: seq<seq<nat>>) returns (input': seq<Poly>, output': seq<Poly>, changed: bool)
    requires |input| == |output| == |succs| && Edges(succs)
    ensures Sets(input', output') == SweepTo(input, output, succs, |succs|)
    ensures changed <==> input' != input
  {
    input', output', changed := input, output, false;
    ghost var diff := 0;
    var b := 0;
    while b < |input|
      invariant 0 <= b <= |input|
      invariant Sets(input', output') == SweepTo(input, output, succs, b)
      invariant forall c | b <= c < |input| :: input'[c] == input[c]
      invariant changed ==> diff < b && input'[diff] != input[diff]
      invariant !changed ==> input' == input
    {
      if succs[b] != [] {
        var o := JoinSuccessors(output'[b], input', succs[b]);
        if input'[b] != o {
          if !changed {
            diff := b;
          }
          changed := true;
        }
        output' := output'[b := o];
        input' := input'[b := o];
      }
      b := b + 1;
    }
  }

  /** The step of the fixpoint loop: one more sweep, which stops the loop exactly when it changed nothing. */
  lemma SweepsNext(init: seq<Poly>, succs: seq<seq<nat>>, k: nat, input: seq<Poly>, output: seq<Poly>,
                   input': seq<Poly>, output': seq<Poly>, changed: bool)
    requires |init| == |succs| && Edges(succs)
    requires Sets(input, output) == Sweeps(init, succs, k)
    requires Sets(input', output') == SweepTo(input, output, succs, |succs|)
    requires changed <==> input' != input
    ensures Sets(input', output') == Sweeps(init, succs, k + 1)
    ensures changed <==> !Stops(init, succs, k + 1)
  {
  }

  /**
   * The fixpoint loop, from the initial inputs and zero outputs: sweeps
   * until one changes no input, and returns the inputs and outputs of that
   * sweep (`Sweeps(init, succs, sweeps)` with `FirstStop(init, succs,
   * sweeps)`). Then every block with successors has its input equal to its
   * output and above each successor's input, blocks without successors keep
   * their initial input, and all inputs are built from the monomials and
   * coefficients of the initial inputs.
   */
  method Fixpoint(init: seq<Poly>, succs: seq<seq<nat>>, ghost n: nat)
    returns (input: seq<Poly>, output: seq<Poly>, ghost sweeps: nat)
    requires |succs| == |init| && Edges(succs) && forall b | 0 <= b < |init| :: WellFormed(init[b], n)
    ensures FirstStop(init, succs, sweeps) && Sets(input, output) == Sweeps(init, succs, sweeps)
    ensures |input| == |output| == |init| && Settled(input, output, succs)
    ensures forall b | 0 <= b < |init| && succs[b] == [] :: input[b] == init[b]
    ensures forall b, k | 0 <= b < |init| && 0 <= k < |succs[b]| :: Below(input[succs[b][k]], input[b])
    ensures Bounded(input, n, Coeffs(init), Monos(init))
  {
    ghost var last := StopsEventually(init, succs, n, 1);
    input := init;
    output := seq(|init|, _ => map[]);
    sweeps := 0;
    var changed := true;
    while changed
      invariant Sets(input, output) == Sweeps(init, succs, sweeps)
      invariant NoStopBefore(init, succs, sweeps)
      invariant sweeps >= 1 ==> (changed <==> !Stops(init, succs, sweeps))
      invariant sweeps == 0 ==> changed
      invariant sweeps <= last
      decreases last - sweeps, if changed then 1 else 0
    {
      var input', output', changed' := Sweep(input, output, succs);
      SweepsNext(init, succs, sweeps, input, output, input', output', changed');
      input, output, changed, sweeps := input', output', changed', sweeps + 1;
    }
    NoStopBeforeAll(init, succs, sweeps);
    StopFacts(init, succs, n, sweeps, input, output);
  }

  /** What holds of the state after the sweep that stops the loop. */
  lemma StopFacts(init: seq<Poly>, succs: seq<seq<nat>>, n: nat, k: nat, input: seq<Poly>, output: seq<Poly>)
    requires |succs| == |init| && Edges(succs) && forall b | 0 <= b < |init| :: WellFormed(init[b], n)
    requires Stops(init, succs, k) && Sets(input, output) == Sweeps(init, succs, k)
    ensures |input| == |output| == |init| && Settled(input, output, succs)
    ensures forall b | 0 <= b < |init| && succs[b] == [] :: input[b] == init[b]
    ensures forall b, k | 0 <= b < |init| && 0 <= k < |succs[b]| :: Below(input[succs[b][k]], input[b])
    ensures Bounded(input, n, Coeffs(init), Monos(init))
  {
    SweepsFacts(init, succs, n, k);
    StopsCovers(init, succs, n, k);
  }

  /** The result of the loop is a solution in the sense below. */
  lemma ResultSolution(input: seq<Poly>, init: seq<Poly>, succs: seq<seq<nat>>, n: nat)
    requires Result(input, init, succs) && forall b | 0 <= b < |init| :: WellFormed(init[b], n)
    ensures Solution(input, init, succs, n)
  {
    var k: nat :| FirstStop(init, succs, k) && input == Sweeps(init, succs, k).input;
    SweepsFacts(init, succs, n, k);
    StopsCovers(init, succs, n, k);
  }

  /**
   * What the analysis promises about its result `input` for the initial
   * inputs `init`: an exit block keeps its own local cost, every block is
   * above each of its successors, and every term is one of the initial
   * monomials with one of the initial coefficients.
   */
  ghost predicate Solution(input: seq<Poly>, init: seq<Poly>, succs: seq<seq<nat>>, n: nat) {
    |input| == |init| == |succs| && Edges(succs) &&
    (forall b | 0 <= b < |init| && succs[b] == [] :: input[b] == init[b]) &&
    (forall b, k | 0 <= b < |init| && 0 <= k < |succs[b]| :: Below(input[succs[b][k]], input[b])) &&
    Bounded(input, n, Coeffs(init), Monos(init))
  }

  /** `path` follows edges of the graph from its first block to its last. */
  predicate IsPath(succs: seq<seq<nat>>, path: seq<nat>) {
    |path| >= 1 && (forall i | 0 <= i < |path| :: path[i] < |succs|) &&
    forall i | 0 <= i < |path| - 1 :: path[i + 1] in succs[path[i]]
  }

  /**
   * In a solution, the input of a block is above the input of every block
   * it reaches; in particular the entry's result covers the local cost of
   * every exit block reachable from it.
   */
  lemma {:induction false} SolutionAlongPath(input: seq<Poly>, init: seq<Poly>, succs: seq<seq<nat>>, n: nat, path: seq<nat>)
    requires Solution(input, init, succs, n) && IsPath(succs, path)
    ensures Below(input[path[|path| - 1]], input[path[0]])
    ensures succs[path[|path| - 1]] == [] ==> Below(init[path[|path| - 1]], input[path[0]])
  {
    if |path| > 1 {
      var rest := path[1..];
      assert IsPath(succs, rest) by {
        forall i | 0 <= i < |rest| - 1 ensures rest[i + 1] in succs[rest[i]] {
          assert rest[i] == path[i + 1] && rest[i + 1] == path[i + 2];
        }
      }
      SolutionAlongPath(input, init, succs, n, rest);
      var k :| 0 <= k < |succs[path[0]]| && succs[path[0]][k] == path[1];
      assert Below(input[path[1]], input[path[0]]);
      assert rest[|rest| - 1] == path[|path| - 1];
    }
  }

  lemma FoldJoinOne(o: Poly, input: seq<Poly>, s: nat)
    requires s < |input|
    ensures FoldJoin(o, input, [s]) == MaxJoinOf(o, input[s])
  {
    assert [s][..0] == [];
    assert FoldJoin(o, input, [s]) == JoinLast(o, input, [s]);
  }

  lemma FoldJoinTwo(o: Poly, input: seq<Poly>, s: nat, t: nat)
    requires s < |input| && t < |input|
    ensures FoldJoin(o, input, [s, t]) == MaxJoinOf(MaxJoinOf(o, input[s]), input[t])
  {
    assert [s, t][..1] == [s];
    assert FoldJoin(o, input, [s, t]) == JoinLast(o, input, [s, t]);
    FoldJoinOne(o, input, s);
  }

  /**
   * A branch whose two arms cost 5 and 2 and join at an exit block: block 0
   * branches to blocks 1 and 2, which both go to block 3.
   */
  function IfElseInit(): seq<Poly> {
    [map[], map[[] := 5.0], map[[] := 2.0], map[]]
  }

  function IfElseSuccs(): seq<seq<nat>> {
    [[1, 2], [3], [3], []]
  }

  /** The entry block ends with the costlier arm, 5; the arms and the exit end with nothing. */
  function IfElseFinal(): seq<Poly> {
    [map[[] := 5.0], map[], map[], map[]]
  }

  /** The first visit of the first sweep: the entry takes the costlier arm. */
  lemma IfElseFirstVisit()
    ensures SweepTo(IfElseInit(), [map[], map[], map[], map[]], IfElseSuccs(), 1) ==
      Sets([map[[] := 5.0], map[[] := 5.0], map[[] := 2.0], map[]], IfElseFinal())
  {
    var z: Poly, c5: Poly, c2: Poly := map[], map[[] := 5.0], map[[] := 2.0];
    var init, succs := IfElseInit(), IfElseSuccs();
    assert Edges(succs);
    MaxJoinZero(c5);
    MaxJoinAbsorbs(c5, c2);
    FoldJoinTwo(z, init, 1, 2);
  }

  /** The first sweep: after the entry, the arms take the exit's nothing. */
  lemma IfElseFirstSweep()
    ensures Sweeps(IfElseInit(), IfElseSuccs(), 1) == Sets(IfElseFinal(), IfElseFinal())
  {
    var z: Poly, c5: Poly, c2: Poly := map[], map[[] := 5.0], map[[] := 2.0];
    var init, succs, out := IfElseInit(), IfElseSuccs(), IfElseFinal();
    var zs := [z, z, z, z];
    assert Edges(succs);
    assert Sweeps(init, succs, 0) == Sets(init, zs);
    IfElseFirstVisit();
    MaxJoinZero(z);
    FoldJoinOne(z, [c5, c5, c2, z], 3);
    assert SweepTo(init, zs, succs, 2) == Sets([c5, z, c2, z], out);
    FoldJoinOne(z, [c5, z, c2, z], 3);
    assert SweepTo(init, zs, succs, 3) == Sets(out, out);
    assert SweepTo(init, zs, succs, 4) == Sets(out, out);
    SweepsStep(init, succs, 0);
  }

  /** The second sweep changes nothing. */
  lemma IfElseSecondSweep()
    ensures Sweeps(IfElseInit(), IfElseSuccs(), 2) == Sets(IfElseFinal(), IfElseFinal())
  {
    var z: Poly, c5: Poly, c2: Poly := map[], map[[] := 5.0], map[[] := 2.0];
    var init, succs, out := IfElseInit(), IfElseSuccs(), IfElseFinal();
    assert Edges(succs);
    IfElseFirstSweep();
    MaxJoinZero(c5);
    MaxJoinZero(z);
    FoldJoinTwo(c5, out, 1, 2);
    FoldJoinOne(z, out, 3);
    assert SweepTo(out, out, succs, 1) == Sets(out, out);
    assert SweepTo(out, out, succs, 2) == Sets(out, out);
    assert SweepTo(out, out, succs, 3) == Sets(out, out);
    assert SweepTo(out, out, succs, 4) == Sets(out, out);
    SweepsStep(init, succs, 1);
  }

  /**
   * On the branch, the loop stops after its second sweep, and its result is
   * exactly `IfElseFinal()`: the entry block gets 5, not 0 and not 7.
   */
  lemma IfElseEntry()
    ensures Result(IfElseFinal(), IfElseInit(), IfElseSuccs())
    ensures forall input | Result(input, IfElseInit(), IfElseSuccs()) :: input == IfElseFinal()
  {
    var init, succs, out := IfElseInit(), IfElseSuccs(), IfElseFinal();
    assert Edges(succs);
    IfElseFirstSweep();
    IfElseSecondSweep();
    assert [] in init[1] && [] !in out[1];
    assert !Stops(init, succs, 1);
    assert FirstStop(init, succs, 2);
    forall input | Result(input, init, succs)
      ensures input == out
    {
      ResultUnique(input, out, init, succs);
    }
  }
}
