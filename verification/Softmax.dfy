/** Softmax-weighted sums over exact reals.

    `Direct` is the reference every attention kernel is measured against: the
    maximum score, the sum of the weights and the weighted value columns, each
    written as a plain sum over the valid candidates.  The lemmas say how the
    reference behaves under a change of base point and under concatenation. */
module Softmax {

  /** A score as the kernels see it; `NegInf` is "no candidate yet". */
  datatype Score = NegInf | Fin(v: real)

  function MaxScore(a: Score, b: Score): Score {
    if a.NegInf? then b
    else if b.NegInf? then a
    else if a.v < b.v then b else a
  }

  predicate AtMost(a: Score, b: Score) {
    a.NegInf? || (b.Fin? && a.v <= b.v)
  }

  ghost predicate ExpLaw(e: real -> real, x: real, y: real) {
    e(x + y) == e(x) * e(y) && e(x) > 0.0
  }

  /** All the proofs use of the exponential: it is one at zero, positive, and turns sums into products. */
  ghost predicate IsExp(e: real -> real) {
    e(0.0) == 1.0 && forall x, y :: ExpLaw(e, x, y)
  }

  /** The laws do not contradict each other. */
  lemma LawsAreConsistent()
    ensures exists e: real -> real :: IsExp(e)
  {
    var one: real -> real := (x: real) => 1.0;
    assert IsExp(one);
  }

  /** A product under a name: the lemmas match products as terms and leave the arithmetic to
      `Distribute` and `Regroup`. */
  function Times(x: real, y: real): real {
    x * y
  }

  /** exp(s - m), where exp(-inf) is 0. */
  function ExpFrom(e: real -> real, s: Score, m: real): real {
    if s.NegInf? then 0.0 else e(s.v - m)
  }

  lemma ExpChain(e: real -> real, a: real, b: real, c: real)
    requires IsExp(e)
    ensures e(a - c) == Times(e(a - b), e(b - c))
  {
    assert ExpLaw(e, a - b, b - c);
    assert (a - b) + (b - c) == a - c;
  }

  lemma ExpPositive(e: real -> real, x: real)
    requires IsExp(e)
    ensures e(x) > 0.0
  {
    assert ExpLaw(e, x, x);
  }

  /** A sum of weights based at `from`, carried over to the base `to`. */
  function Rescaled(e: real -> real, total: real, from: Score, to: real): real {
    Times(total, ExpFrom(e, from, to))
  }

  // ----- vectors -----

  /** A masked load: positions past the end read as zero. */
  function At(v: seq<real>, d: nat): real {
    if d < |v| then v[d] else 0.0
  }

  function Zeros(n: nat): seq<real> {
    seq(n, _ => 0.0)
  }

  /** x*a + y*b, column by column. */
  function Combine(a: seq<real>, x: real, b: seq<real>, y: real, width: nat): (r: seq<real>)
    ensures |r| == width && forall d :: 0 <= d < width ==> r[d] == Times(At(a, d), x) + Times(At(b, d), y)
  {
    seq(width, d requires 0 <= d => Times(At(a, d), x) + Times(At(b, d), y))
  }

  /** tl.sum over a vector. */
  function Sum(v: seq<real>): real {
    if v == [] then 0.0 else Sum(v[..|v| - 1]) + v[|v| - 1]
  }

  /** tl.max over a vector. */
  function MaxOf(v: seq<Score>): Score {
    if v == [] then NegInf else MaxScore(MaxOf(v[..|v| - 1]), v[|v| - 1])
  }

  function Products(a: seq<real>, b: seq<real>): (r: seq<real>)
    ensures |r| == |a|
  {
    seq(|a|, d requires 0 <= d < |a| => a[d] * At(b, d))
  }

  function Dot(a: seq<real>, b: seq<real>): real {
    Sum(Products(a, b))
  }

  lemma {:induction false} SumAppend(a: seq<real>, b: seq<real>)
    ensures Sum(a + b) == Sum(a) + Sum(b)
  {
    if b == [] {
      assert a + b == a;
    } else {
      assert (a + b)[..|a + b| - 1] == a + b[..|b| - 1];
      SumAppend(a, b[..|b| - 1]);
    }
  }

  /** A dot product may be taken over two column blocks and added up. */
  lemma DotSplit(a: seq<real>, b: seq<real>, k: nat)
    requires k <= |a| && |a| == |b|
    ensures Dot(a[..k], b[..k]) + Dot(a[k..], b[k..]) == Dot(a, b)
  {
    var left, right := Products(a[..k], b[..k]), Products(a[k..], b[k..]);
    forall i | 0 <= i < |a| ensures (left + right)[i] == Products(a, b)[i] {
      if i >= k { assert b[k..][i - k] == b[i]; }
    }
    assert left + right == Products(a, b);
    SumAppend(left, right);
  }

  /** What a dot product is: nothing for no columns, and each further pair adds its product. */
  lemma DotIsSumOfProducts(a: seq<real>, b: seq<real>, x: real, y: real)
    requires |a| == |b|
    ensures Dot([], []) == 0.0
    ensures Dot(a + [x], b + [y]) == Dot(a, b) + x * y
  {
    var products := Products(a + [x], b + [y]);
    forall i | 0 <= i < |a| ensures products[i] == Products(a, b)[i] {
      assert At(b + [y], i) == At(b, i);
    }
    assert products[..|a|] == Products(a, b);
    assert products[|a|] == x * y;
  }

  lemma {:induction false} ZeroSum(v: seq<real>)
    requires forall i :: 0 <= i < |v| ==> v[i] == 0.0
    ensures Sum(v) == 0.0
  {
    if v != [] { ZeroSum(v[..|v| - 1]); }
  }

  // ----- candidates and the reference -----

  datatype Candidate = Candidate(score: real, value: seq<real>)

  /** The running softmax state of one (token, head): maximum, denominator, value columns. */
  datatype State = State(max: Score, denom: real, acc: seq<real>)

  function EmptyState(width: nat): (st: State)
    ensures |st.acc| == width
  {
    State(NegInf, 0.0, Zeros(width))
  }

  function Top(cs: seq<Candidate>): Score {
    if cs == [] then NegInf else MaxScore(Top(cs[..|cs| - 1]), Fin(cs[|cs| - 1].score))
  }

  function Weight(e: real -> real, cs: seq<Candidate>, m: real): real {
    if cs == [] then 0.0
    else Weight(e, cs[..|cs| - 1], m) + e(cs[|cs| - 1].score - m)
  }

  /** What one candidate adds to value column `d` at base `m`. */
  function Share(e: real -> real, score: real, value: seq<real>, m: real, d: nat): real {
    Times(At(value, d), e(score - m))
  }

  function Weighted(e: real -> real, cs: seq<Candidate>, m: real, d: nat): real {
    if cs == [] then 0.0
    else Weighted(e, cs[..|cs| - 1], m, d) + Share(e, cs[|cs| - 1].score, cs[|cs| - 1].value, m, d)
  }

  function Columns(e: real -> real, cs: seq<Candidate>, m: real, width: nat): (r: seq<real>)
    ensures |r| == width && forall d :: 0 <= d < width ==> r[d] == Weighted(e, cs, m, d)
  {
    seq(width, d requires 0 <= d => Weighted(e, cs, m, d))
  }

  /** The reference: softmax sums taken directly over the candidates, based at their maximum. */
  function Direct(e: real -> real, cs: seq<Candidate>, width: nat): (st: State)
    ensures |st.acc| == width
  {
    match Top(cs)
    case NegInf => EmptyState(width)
    case Fin(m) => State(Fin(m), Weight(e, cs, m), Columns(e, cs, m, width))
  }

  lemma {:induction false} TopIsMaximum(cs: seq<Candidate>)
    ensures Top(cs).NegInf? <==> cs == []
    ensures forall i :: 0 <= i < |cs| ==> AtMost(Fin(cs[i].score), Top(cs))
    ensures Top(cs).Fin? ==> exists i :: 0 <= i < |cs| && Top(cs) == Fin(cs[i].score)
  {
    if cs != [] {
      TopIsMaximum(cs[..|cs| - 1]);
      assert Top(cs) == Fin(cs[|cs| - 1].score) || Top(cs) == Top(cs[..|cs| - 1]);
    }
  }

  lemma {:induction false} TopAppend(a: seq<Candidate>, b: seq<Candidate>)
    ensures Top(a + b) == MaxScore(Top(a), Top(b))
  {
    if b == [] {
      assert a + b == a;
    } else {
      assert (a + b)[..|a + b| - 1] == a + b[..|b| - 1];
      TopAppend(a, b[..|b| - 1]);
    }
  }

  lemma {:induction false} WeightAppend(e: real -> real, a: seq<Candidate>, b: seq<Candidate>, m: real)
    ensures Weight(e, a + b, m) == Weight(e, a, m) + Weight(e, b, m)
  {
    if b == [] {
      assert a + b == a;
    } else {
      assert (a + b)[..|a + b| - 1] == a + b[..|b| - 1];
      WeightAppend(e, a, b[..|b| - 1], m);
    }
  }

  lemma {:induction false} WeightedAppend(e: real -> real, a: seq<Candidate>, b: seq<Candidate>, m: real, d: nat)
    ensures Weighted(e, a + b, m, d) == Weighted(e, a, m, d) + Weighted(e, b, m, d)
  {
    if b == [] {
      assert a + b == a;
    } else {
      assert (a + b)[..|a + b| - 1] == a + b[..|b| - 1];
      WeightedAppend(e, a, b[..|b| - 1], m, d);
    }
  }

  lemma Distribute(a: real, b: real, c: real)
    ensures Times(a + b, c) == Times(a, c) + Times(b, c)
  {}

  lemma {:induction false} WeightShift(e: real -> real, cs: seq<Candidate>, m: real, n: real)
    requires IsExp(e)
    ensures Weight(e, cs, n) == Times(Weight(e, cs, m), e(m - n))
  {
    if cs != [] {
      var front, last := cs[..|cs| - 1], cs[|cs| - 1];
      WeightShift(e, front, m, n);
      ExpChain(e, last.score, m, n);
      Distribute(Weight(e, front, m), e(last.score - m), e(m - n));
    }
  }

  lemma {:induction false} WeightedShift(e: real -> real, cs: seq<Candidate>, m: real, n: real, d: nat)
    requires IsExp(e)
    ensures Weighted(e, cs, n, d) == Times(Weighted(e, cs, m, d), e(m - n))
  {
    if cs != [] {
      var front, last := cs[..|cs| - 1], cs[|cs| - 1];
      WeightedShift(e, front, m, n, d);
      ExpChain(e, last.score, m, n);
      Regroup(At(last.value, d), e(last.score - m), e(m - n));
      Distribute(Weighted(e, front, m, d), Share(e, last.score, last.value, m, d), e(m - n));
    }
  }

  lemma Regroup(x: real, y: real, z: real)
    ensures Times(x, Times(y, z)) == Times(Times(x, y), z)
  {}

  /** Based at the maximum, the weights of a non-empty candidate list add up to at least one. */
  lemma {:induction false} WeightAtTop(e: real -> real, cs: seq<Candidate>)
    requires IsExp(e) && cs != []
    ensures Top(cs).Fin? && Weight(e, cs, Top(cs).v) >= 1.0
  {
    TopIsMaximum(cs);
    var m := Top(cs).v;
    var i :| 0 <= i < |cs| && cs[i].score == m;
    WeightAtLeast(e, cs, m, i);
  }

  lemma {:induction false} WeightAtLeast(e: real -> real, cs: seq<Candidate>, m: real, i: nat)
    requires IsExp(e) && i < |cs|
    ensures Weight(e, cs, m) >= e(cs[i].score - m)
  {
    var front := cs[..|cs| - 1];
    ExpPositive(e, cs[|cs| - 1].score - m);
    if i < |front| {
      WeightAtLeast(e, front, m, i);
    } else {
      WeightNonNegative(e, front, m);
    }
  }

  lemma {:induction false} WeightNonNegative(e: real -> real, cs: seq<Candidate>, m: real)
    requires IsExp(e)
    ensures Weight(e, cs, m) >= 0.0
    ensures cs != [] ==> Weight(e, cs, m) > 0.0
  {
    if cs != [] {
      WeightNonNegative(e, cs[..|cs| - 1], m);
      ExpPositive(e, cs[|cs| - 1].score - m);
    }
  }

  lemma AtBaseZero(e: real -> real, cs: seq<Candidate>, width: nat, d: nat)
    requires IsExp(e) && cs != [] && d < width
    ensures var st := Direct(e, cs, width);
            && st.max == Top(cs) && st.max.Fin?
            && Weight(e, cs, 0.0) == st.denom * e(st.max.v)
            && Weighted(e, cs, 0.0, d) == st.acc[d] * e(st.max.v)
  {
    TopIsMaximum(cs);
    hide Weight, Weighted, Top, IsExp;
    var m := Top(cs).v;
    assert m - 0.0 == m;
    WeightShift(e, cs, m, 0.0);
    WeightedShift(e, cs, m, 0.0, d);
  }

  lemma SumsSnoc(e: real -> real, cs: seq<Candidate>, c: Candidate, d: nat)
    ensures Weight(e, cs + [c], 0.0) == Weight(e, cs, 0.0) + e(c.score)
    ensures Weighted(e, cs + [c], 0.0, d) == Weighted(e, cs, 0.0, d) + if d < |c.value| then c.value[d] * e(c.score) else 0.0
  {
    assert (cs + [c])[..|cs|] == cs;
    assert c.score - 0.0 == c.score;
  }

  /** What the reference is, candidate by candidate and in plain arithmetic: nothing without candidates;
      with one more, the maximum is the larger of the two, the denominator times exp(maximum) grows by
      exp(score), and every value column times exp(maximum) by the value times exp(score). */
  lemma DirectIsSoftmax(e: real -> real, cs: seq<Candidate>, c: Candidate, width: nat, d: nat)
    requires IsExp(e) && d < width
    ensures var st, more := Direct(e, cs, width), Direct(e, cs + [c], width);
            && (cs == [] ==> st.max == NegInf && st.denom == 0.0 && st.acc[d] == 0.0)
            && (cs != [] ==> st.max.Fin?)
            && more.max == Fin(if cs == [] || st.max.v < c.score then c.score else st.max.v)
            && more.denom * e(more.max.v) == (if cs == [] then 0.0 else st.denom * e(st.max.v)) + e(c.score)
            && more.acc[d] * e(more.max.v)
               == (if cs == [] then 0.0 else st.acc[d] * e(st.max.v)) + if d < |c.value| then c.value[d] * e(c.score) else 0.0
  {
    assert (cs + [c])[..|cs|] == cs;
    TopIsMaximum(cs);
    hide Weight, Weighted, IsExp;
    AtBaseZero(e, cs + [c], width, d);
    SumsSnoc(e, cs, c, d);
    if cs == [] {
      NothingAdds(e, d);
    } else {
      AtBaseZero(e, cs, width, d);
    }
  }

  lemma NothingAdds(e: real -> real, d: nat)
    ensures Weight(e, [], 0.0) == 0.0 == Weighted(e, [], 0.0, d)
  {}

  lemma TopOfAppend(a: seq<Candidate>, b: seq<Candidate>)
    requires a + b != []
    ensures Top(a + b).Fin? && Top(a + b) == MaxScore(Top(a), Top(b))
    ensures Top(a).NegInf? <==> a == []
    ensures Top(b).NegInf? <==> b == []
  {
    TopIsMaximum(a + b);
    TopIsMaximum(a);
    TopIsMaximum(b);
    TopAppend(a, b);
  }

  /** The sums of `cs` based at `n`, from its own state, which is based at its maximum. */
  lemma RebaseDenom(e: real -> real, cs: seq<Candidate>, width: nat, n: real)
    requires IsExp(e)
    ensures Weight(e, cs, n) == Rescaled(e, Direct(e, cs, width).denom, Direct(e, cs, width).max, n)
  {
    TopIsMaximum(cs);
    if cs != [] { WeightShift(e, cs, Top(cs).v, n); }
  }

  lemma RebaseColumn(e: real -> real, cs: seq<Candidate>, width: nat, n: real, d: nat)
    requires IsExp(e) && d < width
    ensures Weighted(e, cs, n, d) == Rescaled(e, Direct(e, cs, width).acc[d], Direct(e, cs, width).max, n)
  {
    TopIsMaximum(cs);
    if cs != [] { WeightedShift(e, cs, Top(cs).v, n, d); }
  }

  /** Appending `b` to `a`: the sums of `a` rescaled to the new maximum plus those of `b` based there. */
  lemma AppendedDenom(e: real -> real, a: seq<Candidate>, b: seq<Candidate>, width: nat, n: real)
    requires IsExp(e)
    ensures Weight(e, a + b, n) == Rescaled(e, Direct(e, a, width).denom, Direct(e, a, width).max, n) + Weight(e, b, n)
  {
    RebaseDenom(e, a, width, n);
    WeightAppend(e, a, b, n);
  }

  lemma AppendedColumn(e: real -> real, a: seq<Candidate>, b: seq<Candidate>, width: nat, n: real, d: nat)
    requires IsExp(e) && d < width
    ensures Weighted(e, a + b, n, d)
         == Rescaled(e, Direct(e, a, width).acc[d], Direct(e, a, width).max, n) + Weighted(e, b, n, d)
  {
    RebaseColumn(e, a, width, n, d);
    WeightedAppend(e, a, b, n, d);
  }

  /** Merging two states the way the chunk-merge kernels do: each side is rescaled to the common
      maximum, and a side that is still empty contributes nothing. */
  function Merge(e: real -> real, s: State, t: State): State {
    var next := MaxScore(s.max, t.max);
    State(next, MergeDenom(e, s, t, next), MergeAcc(e, s, t, next))
  }

  function MergeDenom(e: real -> real, s: State, t: State, next: Score): real {
    if next.NegInf? then Times(s.denom, 0.0) + Times(t.denom, 0.0)
    else Rescaled(e, s.denom, s.max, next.v) + Rescaled(e, t.denom, t.max, next.v)
  }

  function MergeAcc(e: real -> real, s: State, t: State, next: Score): (r: seq<real>)
    ensures |r| == |s.acc|
  {
    if next.NegInf? then Combine(s.acc, 0.0, t.acc, 0.0, |s.acc|)
    else seq(|s.acc|, d requires 0 <= d < |s.acc| =>
               Rescaled(e, s.acc[d], s.max, next.v) + Rescaled(e, At(t.acc, d), t.max, next.v))
  }

  lemma MergedDenom(e: real -> real, a: seq<Candidate>, b: seq<Candidate>, width: nat, n: real)
    requires IsExp(e)
    ensures MergeDenom(e, Direct(e, a, width), Direct(e, b, width), Fin(n)) == Weight(e, a + b, n)
  {
    AppendedDenom(e, a, b, width, n);
    RebaseDenom(e, b, width, n);
  }

  lemma MergedColumn(e: real -> real, a: seq<Candidate>, b: seq<Candidate>, width: nat, n: real, d: nat)
    requires IsExp(e) && d < width
    ensures MergeAcc(e, Direct(e, a, width), Direct(e, b, width), Fin(n))[d] == Weighted(e, a + b, n, d)
  {
    AppendedColumn(e, a, b, width, n, d);
    RebaseColumn(e, b, width, n, d);
  }

  /** Merging the states of two candidate lists gives the state of their concatenation. */
  lemma MergeIsConcatenation(e: real -> real, a: seq<Candidate>, b: seq<Candidate>, width: nat)
    requires IsExp(e)
    ensures Merge(e, Direct(e, a, width), Direct(e, b, width)) == Direct(e, a + b, width)
  {
    var s, t := Direct(e, a, width), Direct(e, b, width);
    var whole := Direct(e, a + b, width);
    if a + b == [] {
      assert MergeAcc(e, s, t, NegInf) == whole.acc;
    } else {
      TopOfAppend(a, b);
      var n := Top(a + b).v;
      MergedDenom(e, a, b, width, n);
      forall d | 0 <= d < width ensures MergeAcc(e, s, t, Fin(n))[d] == whole.acc[d] {
        MergedColumn(e, a, b, width, n, d);
      }
      assert MergeAcc(e, s, t, Fin(n)) == whole.acc;
    }
  }
}
