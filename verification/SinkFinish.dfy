/** Turning softmax states into outputs, with an attention sink: a score that takes part in the
    denominator but has no value.  Every variant is measured against `SinkOutput`. */
module SinkFinish {
  import opened Softmax
  import opened Lanes
  import opened IndexedAttention

  function SinkWeight(e: real -> real, sink: Score): real {
    if sink.NegInf? then 0.0 else e(sink.v)
  }

  /** sum e(s) v / (sum e(s) + e(sink)); zero when there is neither a candidate nor a sink. */
  function SinkOutput(e: real -> real, cs: seq<Candidate>, sink: Score, width: nat): (r: seq<real>)
    ensures |r| == width && forall d :: 0 <= d < width ==> r[d] == SinkColumn(e, cs, sink, d)
  {
    seq(width, d requires 0 <= d => SinkColumn(e, cs, sink, d))
  }

  function SinkColumn(e: real -> real, cs: seq<Candidate>, sink: Score, d: nat): real {
    Ratio(Weighted(e, cs, 0.0, d), Weight(e, cs, 0.0) + SinkWeight(e, sink))
  }

  /** x / y, and zero at 1 / 0.  The finish kernels substitute that zero themselves; the merge and score
      kernels divide plainly, and their models below divide plainly too. */
  function Ratio(x: real, y: real): real {
    if y > 0.0 then x / y else 0.0
  }

  /** Both sums may be taken at any base. */
  lemma RatioScales(x: real, y: real, k: real)
    requires k > 0.0
    ensures Ratio(Times(x, k), Times(y, k)) == Ratio(x, y)
  {
    if y > 0.0 {
      assert y * k > 0.0;
      assert (x * k) / (y * k) == x / y by {
        assert (x / y) * (y * k) == ((x / y) * y) * k;
      }
    } else {
      assert y * k <= 0.0;
    }
  }

  lemma SinkShift(e: real -> real, sink: Score, m: real)
    requires IsExp(e)
    ensures SinkWeight(e, sink) == Times(ExpFrom(e, sink, m), e(m))
  {
    if sink.Fin? {
      ExpChain(e, sink.v, m, 0.0);
      assert sink.v - 0.0 == sink.v && m - 0.0 == m;
    }
  }

  lemma AtZero(e: real -> real, cs: seq<Candidate>, m: real, d: nat)
    requires IsExp(e)
    ensures Weight(e, cs, 0.0) == Times(Weight(e, cs, m), e(m))
    ensures Weighted(e, cs, 0.0, d) == Times(Weighted(e, cs, m, d), e(m))
  {
    hide *;
    assert m - 0.0 == m;
    WeightShift(e, cs, m, 0.0);
    WeightedShift(e, cs, m, 0.0, d);
  }

  lemma SinkColumnAtBase(e: real -> real, cs: seq<Candidate>, sink: Score, m: real, d: nat)
    requires IsExp(e)
    ensures SinkColumn(e, cs, sink, d) == Ratio(Weighted(e, cs, m, d), Weight(e, cs, m) + ExpFrom(e, sink, m))
  {
    hide Times, Ratio, Weight, Weighted, ExpFrom, SinkWeight, IsExp;
    AtZero(e, cs, m, d);
    SinkShift(e, sink, m);
    ExpPositive(e, m);
    Distribute(Weight(e, cs, m), ExpFrom(e, sink, m), e(m));
    RatioScales(Weighted(e, cs, m, d), Weight(e, cs, m) + ExpFrom(e, sink, m), e(m));
  }

  // ----- finishing states -----

  function Inverse(y: real): real {
    if y > 0.0 then 1.0 / y else 0.0
  }

  lemma TimesInverse(x: real, y: real)
    ensures Times(x, Inverse(y)) == Ratio(x, y)
  {
    if y > 0.0 { assert x * (1.0 / y) == x / y; }
  }

  /** The base a finish kernel rescales to: the largest of the non-empty states' maxima and the sink,
      zero when there is none. */
  function FinishBase(maxima: Score, sink: Score): real {
    match MaxScore(maxima, sink)
    case NegInf => 0.0
    case Fin(m) => m
  }

  /** A state counts only when its denominator is positive. */
  function ValidMax(st: State): Score {
    if st.denom > 0.0 then st.max else NegInf
  }

  /** _finish_attention_state_with_sink_kernel. */
  function FinishWithSink(e: real -> real, st: State, sink: Score): (r: seq<real>)
    ensures |r| == |st.acc|
  {
    var base := FinishBase(ValidMax(st), sink);
    var scale := ExpFrom(e, ValidMax(st), base);
    var inverse := Inverse(Times(st.denom, scale) + ExpFrom(e, sink, base));
    seq(|st.acc|, d requires 0 <= d < |st.acc| => Times(Times(st.acc[d], scale), inverse))
  }

  /** _finish_two_attention_states_with_sink_kernel. */
  function FinishTwo(e: real -> real, s: State, t: State, sink: Score): (r: seq<real>)
    ensures |r| == |s.acc|
  {
    var base := FinishBase(MaxScore(ValidMax(s), ValidMax(t)), sink);
    var scale0, scale1 := ExpFrom(e, ValidMax(s), base), ExpFrom(e, ValidMax(t), base);
    var inverse := Inverse(Times(s.denom, scale0) + Times(t.denom, scale1) + ExpFrom(e, sink, base));
    seq(|s.acc|, d requires 0 <= d < |s.acc| =>
          Times(Times(s.acc[d], scale0) + Times(At(t.acc, d), scale1), inverse))
  }

  lemma DirectValidMax(e: real -> real, cs: seq<Candidate>, width: nat)
    requires IsExp(e)
    ensures ValidMax(Direct(e, cs, width)) == Direct(e, cs, width).max == Top(cs)
    ensures Direct(e, cs, width).denom >= 0.0
    ensures Direct(e, cs, width).denom > 0.0 <==> cs != []
  {
    TopIsMaximum(cs);
    if cs != [] { WeightAtTop(e, cs); }
  }

  /** Finishing one state gives the output over its candidates, with or without a sink. */
  lemma FinishWithSinkCorrect(e: real -> real, cs: seq<Candidate>, sink: Score, width: nat)
    requires IsExp(e)
    ensures FinishWithSink(e, Direct(e, cs, width), sink) == SinkOutput(e, cs, sink, width)
  {
    var st := Direct(e, cs, width);
    DirectValidMax(e, cs, width);
    var base := FinishBase(ValidMax(st), sink);
    hide Direct, IsExp, Ratio, Inverse, Weight, Weighted, SinkColumn, Times, FinishBase, ExpFrom;
    forall d | 0 <= d < width ensures FinishWithSink(e, st, sink)[d] == SinkColumn(e, cs, sink, d) {
      RebaseDenom(e, cs, width, base);
      RebaseColumn(e, cs, width, base, d);
      SinkColumnAtBase(e, cs, sink, base, d);
      TimesInverse(Weighted(e, cs, base, d), Weight(e, cs, base) + ExpFrom(e, sink, base));
    }
    assert FinishWithSink(e, st, sink) == SinkOutput(e, cs, sink, width);
  }

  lemma FinishTwoColumn(e: real -> real, a: seq<Candidate>, b: seq<Candidate>, sink: Score, width: nat, base: real, d: nat)
    requires IsExp(e) && d < width
    ensures var s, t := Direct(e, a, width), Direct(e, b, width);
            var scale0, scale1 := ExpFrom(e, s.max, base), ExpFrom(e, t.max, base);
            var inverse := Inverse(Times(s.denom, scale0) + Times(t.denom, scale1) + ExpFrom(e, sink, base));
            Times(Times(s.acc[d], scale0) + Times(t.acc[d], scale1), inverse) == SinkColumn(e, a + b, sink, d)
  {
    hide Direct, IsExp, Ratio, Inverse, Weight, Weighted, SinkColumn, Times, ExpFrom;
    RebaseDenom(e, b, width, base);
    RebaseColumn(e, b, width, base, d);
    AppendedDenom(e, a, b, width, base);
    AppendedColumn(e, a, b, width, base, d);
    SinkColumnAtBase(e, a + b, sink, base, d);
    TimesInverse(Weighted(e, a + b, base, d), Weight(e, a + b, base) + ExpFrom(e, sink, base));
  }

  /** Finishing two states gives the output over both candidate lists, so it agrees with merging the
      states first. */
  lemma FinishTwoCorrect(e: real -> real, a: seq<Candidate>, b: seq<Candidate>, sink: Score, width: nat)
    requires IsExp(e)
    ensures FinishTwo(e, Direct(e, a, width), Direct(e, b, width), sink) == SinkOutput(e, a + b, sink, width)
    ensures FinishTwo(e, Direct(e, a, width), Direct(e, b, width), sink)
         == FinishWithSink(e, Merge(e, Direct(e, a, width), Direct(e, b, width)), sink)
  {
    hide Direct, Merge, IsExp, Inverse, SinkColumn, Times, FinishBase, ExpFrom, FinishWithSink, ValidMax;
    MergeIsConcatenation(e, a, b, width);
    FinishWithSinkCorrect(e, a + b, sink, width);
    var s, t := Direct(e, a, width), Direct(e, b, width);
    DirectValidMax(e, a, width);
    DirectValidMax(e, b, width);
    var base := FinishBase(MaxScore(ValidMax(s), ValidMax(t)), sink);
    forall d | 0 <= d < width ensures FinishTwo(e, s, t, sink)[d] == SinkColumn(e, a + b, sink, d) {
      FinishTwoColumn(e, a, b, sink, width, base, d);
    }
    assert FinishTwo(e, s, t, sink) == SinkOutput(e, a + b, sink, width);
  }

  // ----- normalised outputs and their log-sum-exp -----

  ghost predicate LogLaw(e: real -> real, l: real -> real, x: real) {
    (x > 0.0 ==> e(l(x)) == x) && l(e(x)) == x
  }

  ghost predicate IsLog(e: real -> real, l: real -> real) {
    forall x :: LogLaw(e, l, x)
  }

  datatype Normalised = Normalised(output: seq<real>, lse: Score)

  /** _finish_attention_state_kernel: the state's own output and log-sum-exp, no sink. */
  function FinishState(l: real -> real, st: State): (r: Normalised)
    ensures |r.output| == |st.acc|
  {
    Normalised(seq(|st.acc|, d requires 0 <= d < |st.acc| => Times(st.acc[d], Inverse(st.denom))),
               if st.denom > 0.0 && st.max.Fin? then Fin(st.max.v + l(st.denom)) else NegInf)
  }

  lemma Cancel(v: real, w: real, k: real)
    requires w > 0.0
    ensures Times(Times(v, Inverse(w)), Times(w, k)) == Times(v, k)
  {
    assert (v * (1.0 / w)) * (w * k) == v * k by {
      assert (1.0 / w) * w == 1.0;
      assert (v * (1.0 / w)) * (w * k) == v * ((1.0 / w) * w) * k;
    }
  }

  /** The log-sum-exp stands for the whole weight, at any base. */
  lemma LseIsWeight(e: real -> real, l: real -> real, cs: seq<Candidate>, width: nat, m: real)
    requires IsExp(e) && IsLog(e, l)
    ensures var lse := FinishState(l, Direct(e, cs, width)).lse;
            && ExpFrom(e, lse, m) == Weight(e, cs, m)
            && (lse.NegInf? <==> cs == [])
  {
    DirectValidMax(e, cs, width);
    if cs != [] {
      var top, w := Top(cs).v, Direct(e, cs, width).denom;
      assert LogLaw(e, l, w);
      hide IsExp, IsLog;
      WeightShift(e, cs, top, m);
      ExpChain(e, top + l(w), top, m);
      assert (top + l(w)) - top == l(w);
    }
  }

  /** It is the logarithm of the sum of the exponentials. */
  lemma LseIsLogSumExp(e: real -> real, l: real -> real, cs: seq<Candidate>, width: nat)
    requires IsExp(e) && IsLog(e, l) && cs != []
    ensures FinishState(l, Direct(e, cs, width)).lse == Fin(l(Weight(e, cs, 0.0)))
  {
    hide FinishState, Direct, Weight, IsExp;
    LseIsWeight(e, l, cs, width, 0.0);
    var lse := FinishState(l, Direct(e, cs, width)).lse;
    assert LogLaw(e, l, lse.v);
    assert lse.v - 0.0 == lse.v;
  }

  lemma NormalisedShare(e: real -> real, l: real -> real, cs: seq<Candidate>, width: nat, m: real, d: nat)
    requires IsExp(e) && d < width
    ensures Times(FinishState(l, Direct(e, cs, width)).output[d], Weight(e, cs, m)) == Weighted(e, cs, m, d)
  {
    DirectValidMax(e, cs, width);
    if cs != [] {
      var top := Top(cs).v;
      WeightShift(e, cs, top, m);
      WeightedShift(e, cs, top, m, d);
      Cancel(Weighted(e, cs, top, d), Weight(e, cs, top), e(top - m));
    }
  }

  datatype Output = NotANumber | Values(values: seq<real>)

  /** _merge_two_subsets_with_sink_kernel.  With nothing finite to rescale to, the kernel takes
      exp(-inf - -inf). */
  function MergeTwo(e: real -> real, x: Normalised, y: Normalised, sink: Score): Output {
    match MaxScore(MaxScore(x.lse, y.lse), sink)
    case NegInf => NotANumber
    case Fin(m) =>
      var w0, w1 := ExpFrom(e, x.lse, m), ExpFrom(e, y.lse, m);
      var denom := w0 + w1 + ExpFrom(e, sink, m);
      if denom == 0.0 then NotANumber
      else Values(seq(|x.output|, d requires 0 <= d < |x.output| =>
                        (Times(x.output[d], w0) + Times(At(y.output, d), w1)) / denom))
  }

  /** _merge_single_subset_with_sink_kernel. */
  function MergeOne(e: real -> real, x: Normalised, sink: Score): Output {
    match MaxScore(x.lse, sink)
    case NegInf => NotANumber
    case Fin(m) =>
      var w := ExpFrom(e, x.lse, m);
      var denom := w + ExpFrom(e, sink, m);
      if denom == 0.0 then NotANumber
      else Values(seq(|x.output|, d requires 0 <= d < |x.output| => Times(x.output[d], w) / denom))
  }

  lemma ExpFromPositive(e: real -> real, s: Score, m: real)
    requires IsExp(e)
    ensures ExpFrom(e, s, m) >= 0.0
    ensures s.Fin? ==> ExpFrom(e, s, m) > 0.0
  {
    if s.Fin? { ExpPositive(e, s.v - m); }
  }

  /** The weights are based at their own maximum, so the denominator is positive wherever there is one. */
  lemma DenominatorPositive(e: real -> real, a: Score, b: Score, sink: Score, m: real)
    requires IsExp(e) && (a.Fin? || b.Fin? || sink.Fin?)
    ensures ExpFrom(e, a, m) + ExpFrom(e, b, m) + ExpFrom(e, sink, m) > 0.0
  {
    hide ExpFrom;
    ExpFromPositive(e, a, m);
    ExpFromPositive(e, b, m);
    ExpFromPositive(e, sink, m);
  }

  lemma NothingAt(e: real -> real, m: real)
    ensures ExpFrom(e, NegInf, m) == 0.0
  {}

  lemma RatioDivides(x: real, y: real)
    requires y > 0.0
    ensures Ratio(x, y) == x / y
  {}

  lemma MergeColumn(e: real -> real, l: real -> real, a: seq<Candidate>, b: seq<Candidate>, sink: Score, width: nat, m: real, d: nat)
    requires IsExp(e) && IsLog(e, l) && d < width
    ensures var x, y := FinishState(l, Direct(e, a, width)), FinishState(l, Direct(e, b, width));
            var w0, w1 := ExpFrom(e, x.lse, m), ExpFrom(e, y.lse, m);
            Ratio(Times(x.output[d], w0) + Times(y.output[d], w1), w0 + w1 + ExpFrom(e, sink, m)) == SinkColumn(e, a + b, sink, d)
  {
    hide *;
    LseIsWeight(e, l, a, width, m);
    LseIsWeight(e, l, b, width, m);
    NormalisedShare(e, l, a, width, m, d);
    NormalisedShare(e, l, b, width, m, d);
    WeightAppend(e, a, b, m);
    WeightedAppend(e, a, b, m, d);
    SinkColumnAtBase(e, a + b, sink, m, d);
  }

  /** Merging two separately normalised subsets by their log-sum-exps gives the output over both; it
      fails to be a number exactly when both are empty and there is no sink. */
  lemma MergeTwoCorrect(e: real -> real, l: real -> real, a: seq<Candidate>, b: seq<Candidate>, sink: Score, width: nat)
    requires IsExp(e) && IsLog(e, l)
    ensures MergeTwo(e, FinishState(l, Direct(e, a, width)), FinishState(l, Direct(e, b, width)), sink)
         == if a + b == [] && sink.NegInf? then NotANumber else Values(SinkOutput(e, a + b, sink, width))
  {
    hide FinishState, Direct, IsExp, IsLog, SinkColumn, ExpFrom, Ratio, Times;
    var x, y := FinishState(l, Direct(e, a, width)), FinishState(l, Direct(e, b, width));
    LseIsWeight(e, l, a, width, 0.0);
    LseIsWeight(e, l, b, width, 0.0);
    var merged := MergeTwo(e, x, y, sink);
    if x.lse.Fin? || y.lse.Fin? || sink.Fin? {
      var m := MaxScore(MaxScore(x.lse, y.lse), sink).v;
      DenominatorPositive(e, x.lse, y.lse, sink, m);
      forall d | 0 <= d < width ensures merged.values[d] == SinkColumn(e, a + b, sink, d) {
        MergeColumn(e, l, a, b, sink, width, m, d);
        RatioDivides(Times(x.output[d], ExpFrom(e, x.lse, m)) + Times(y.output[d], ExpFrom(e, y.lse, m)),
                     ExpFrom(e, x.lse, m) + ExpFrom(e, y.lse, m) + ExpFrom(e, sink, m));
      }
      assert merged.values == SinkOutput(e, a + b, sink, width);
    }
  }

  lemma MergeOneColumn(e: real -> real, l: real -> real, cs: seq<Candidate>, sink: Score, width: nat, m: real, d: nat)
    requires IsExp(e) && IsLog(e, l) && d < width
    ensures var x := FinishState(l, Direct(e, cs, width));
            var w := ExpFrom(e, x.lse, m);
            Ratio(Times(x.output[d], w), w + ExpFrom(e, sink, m)) == SinkColumn(e, cs, sink, d)
  {
    hide *;
    LseIsWeight(e, l, cs, width, m);
    NormalisedShare(e, l, cs, width, m, d);
    SinkColumnAtBase(e, cs, sink, m, d);
  }

  /** One normalised subset and a sink: the documented output * exp(lse) / (exp(lse) + exp(sink)). */
  lemma MergeOneCorrect(e: real -> real, l: real -> real, cs: seq<Candidate>, sink: Score, width: nat)
    requires IsExp(e) && IsLog(e, l)
    ensures MergeOne(e, FinishState(l, Direct(e, cs, width)), sink)
         == if cs == [] && sink.NegInf? then NotANumber else Values(SinkOutput(e, cs, sink, width))
  {
    hide FinishState, Direct, IsExp, IsLog, SinkColumn, ExpFrom, Ratio, Times;
    var x := FinishState(l, Direct(e, cs, width));
    LseIsWeight(e, l, cs, width, 0.0);
    var merged := MergeOne(e, x, sink);
    if x.lse.Fin? || sink.Fin? {
      var m := MaxScore(x.lse, sink).v;
      DenominatorPositive(e, x.lse, NegInf, sink, m);
      NothingAt(e, m);
      forall d | 0 <= d < width ensures merged.values[d] == SinkColumn(e, cs, sink, d) {
        MergeOneColumn(e, l, cs, sink, width, m, d);
        RatioDivides(Times(x.output[d], ExpFrom(e, x.lse, m)), ExpFrom(e, x.lse, m) + ExpFrom(e, sink, m));
      }
      assert merged.values == SinkOutput(e, cs, sink, width);
    }
  }

  // ----- materialized scores -----

  /** The running kernels start from the sink as if it were a candidate without a value, weight one. */
  function Seed(sink: Score, width: nat): State {
    State(sink, 1.0, Zeros(width))
  }

  lemma SeedIsCandidate(e: real -> real, s: real, width: nat)
    requires IsExp(e)
    ensures Seed(Fin(s), width) == Direct(e, [Candidate(s, [])], width)
  {
    var cs := [Candidate(s, [])];
    assert cs[..0] == [];
    var zero := s - s;
    ExpOfZero(e, zero);
    SeedWeights(e, s, s, 0);
    assert Top(cs) == Fin(s);
    assert Weight(e, cs, s) == 1.0;
    forall d | 0 <= d < width ensures Weighted(e, cs, s, d) == 0.0 {
      SeedWeights(e, s, s, d);
    }
    assert Columns(e, cs, s, width) == Zeros(width);
  }

  lemma ExpOfZero(e: real -> real, z: real)
    requires IsExp(e) && z == 0.0
    ensures e(z) == 1.0
  {}

  /** Without a sink the seed's weight vanishes with the first candidate. */
  lemma {:induction false} SeedVanishes(e: real -> real, cs: seq<Candidate>, width: nat)
    requires cs != []
    ensures Accumulate(e, Seed(NegInf, width), cs) == Accumulate(e, EmptyState(width), cs)
  {
    var front := cs[..|cs| - 1];
    if front != [] { SeedVanishes(e, front, width); }
  }

  lemma SeededColumn(e: real -> real, cs: seq<Candidate>, sink: Score, width: nat, d: nat)
    requires IsExp(e) && d < width
    ensures var st := Accumulate(e, Seed(sink, width), cs);
            && |st.acc| == width && st.denom > 0.0
            && st.acc[d] / st.denom == SinkColumn(e, cs, sink, d)
  {
    match sink
    case NegInf =>
      if cs != [] {
        SeedVanishes(e, cs, width);
        AccumulateIsDirect(e, [], cs, width);
        assert [] + cs == cs;
        TopIsMaximum(cs);
        WeightAtTop(e, cs);
        SinkColumnAtBase(e, cs, sink, Top(cs).v, d);
      }
    case Fin(s) =>
      SeedIsCandidate(e, s, width);
      SeededWithSink(e, cs, s, width, d);
  }

  /** The seed's weight keeps the denominator away from zero: it starts at one. */
  lemma {:induction false} SeededDenom(e: real -> real, cs: seq<Candidate>, sink: Score, width: nat)
    requires IsExp(e)
    ensures Accumulate(e, Seed(sink, width), cs).denom > 0.0
  {
    if cs != [] {
      var front, last := cs[..|cs| - 1], cs[|cs| - 1];
      SeededDenom(e, front, sink, width);
      StepDenom(e, Accumulate(e, Seed(sink, width), front), last.score, last.value);
    }
  }

  lemma StepDenom(e: real -> real, st: State, score: real, row: seq<real>)
    requires IsExp(e) && st.denom > 0.0
    ensures Step(e, st, score, row).denom > 0.0
  {
    var next := MaxScore(st.max, Fin(score)).v;
    ExpFromPositive(e, st.max, next);
    ExpPositive(e, score - next);
    assert Rescaled(e, st.denom, st.max, next) >= 0.0;
  }

  lemma DirectSums(e: real -> real, cs: seq<Candidate>, width: nat, d: nat)
    requires IsExp(e) && cs != [] && d < width
    ensures var st := Direct(e, cs, width);
            && Top(cs).Fin? && |st.acc| == width
            && st.denom == Weight(e, cs, Top(cs).v) > 0.0
            && st.acc[d] == Weighted(e, cs, Top(cs).v, d)
  {
    hide Weight, Weighted, Top, IsExp;
    WeightAtTop(e, cs);
  }

  lemma SeededWithSink(e: real -> real, cs: seq<Candidate>, s: real, width: nat, d: nat)
    requires IsExp(e) && d < width
    ensures var st := Accumulate(e, Direct(e, [Candidate(s, [])], width), cs);
            && |st.acc| == width && st.denom > 0.0
            && st.acc[d] / st.denom == SinkColumn(e, cs, Fin(s), d)
  {
    hide *;
    var seed := [Candidate(s, [])];
    var all := seed + cs;
    AccumulateIsDirect(e, seed, cs, width);
    DirectSums(e, all, width, d);
    var m := Top(all).v;
    SeedWeights(e, s, m, d);
    WeightAppend(e, seed, cs, m);
    WeightedAppend(e, seed, cs, m, d);
    SinkColumnAtBase(e, cs, Fin(s), m, d);
    RatioDivides(Weighted(e, all, m, d), Weight(e, all, m));
  }

  lemma SeedWeights(e: real -> real, s: real, m: real, d: nat)
    ensures Weight(e, [Candidate(s, [])], m) == ExpFrom(e, Fin(s), m)
    ensures Weighted(e, [Candidate(s, [])], m, d) == 0.0
  {
    assert [Candidate(s, [])][..0] == [];
  }

  /** _finish_materialized_scores_with_sink_kernel: one candidate at a time, seeded with the sink. */
  method RunningWithSink(e: real -> real, scores: seq<real>, rows: seq<seq<real>>, valid: seq<bool>, sink: Score, width: nat)
    returns (out: seq<real>)
    requires IsExp(e) && |scores| == |rows| == |valid|
    ensures out == SinkOutput(e, Kept(MaskedColumns(scores, rows, valid), 0, |rows|), sink, width)
  {
    ghost var cols := MaskedColumns(scores, rows, valid);
    var running := Seed(sink, width);
    for c := 0 to |rows|
      invariant running == Accumulate(e, Seed(sink, width), Kept(cols, 0, c))
    {
      AccumulateColumn(e, Seed(sink, width), Kept(cols, 0, c), cols[c]);
      if valid[c] {
        running := Step(e, running, scores[c], rows[c]);
      }
    }
    SeededDenom(e, Kept(cols, 0, |rows|), sink, width);
    forall d | 0 <= d < width
      ensures |running.acc| == width
      ensures running.acc[d] / running.denom == SinkColumn(e, Kept(cols, 0, |rows|), sink, d)
    {
      SeededColumn(e, Kept(cols, 0, |rows|), sink, width, d);
    }
    var denom := running.denom;
    out := seq(width, d requires 0 <= d < width => At(running.acc, d) / denom);
    assert out == SinkOutput(e, Kept(cols, 0, |rows|), sink, width);
  }

  /** The rows as a program of the value-block kernel sees them: its own columns, from `start` on. */
  function RowsFrom(rows: seq<seq<real>>, start: nat): (r: seq<seq<real>>)
    ensures |r| == |rows| && forall c, d: nat :: 0 <= c < |r| ==> At(r[c], d) == At(rows[c], start + d)
  {
    seq(|rows|, c requires 0 <= c < |rows| => if start <= |rows[c]| then rows[c][start..] else [])
  }

  lemma ShiftedEntry(scores: seq<real>, rows: seq<seq<real>>, valid: seq<bool>, start: nat, c: nat, d: nat)
    requires |scores| == |rows| == |valid| && c < |rows|
    ensures var here, whole := MaskedColumns(scores, RowsFrom(rows, start), valid), MaskedColumns(scores, rows, valid);
            here[c].score == whole[c].score && At(here[c].row, d) == At(whole[c].row, start + d)
  {
    hide RowsFrom, MaskedColumns;
    assert At(RowsFrom(rows, start)[c], d) == At(rows[c], start + d);
  }

  /** Two column lists that agree, entry by entry, on scores and on column i of one and j of the other. */
  predicate SameEntries(a: seq<Column>, i: nat, b: seq<Column>, j: nat) {
    && |a| == |b|
    && forall c :: 0 <= c < |a| ==> a[c].score == b[c].score && At(a[c].row, i) == At(b[c].row, j)
  }

  lemma EntryAgrees(a: seq<Column>, i: nat, b: seq<Column>, j: nat, c: nat)
    requires SameEntries(a, i, b, j) && c < |a|
    ensures c < |b| && a[c].score == b[c].score && At(a[c].row, i) == At(b[c].row, j)
  {}

  lemma {:induction false} SameEntriesSum(e: real -> real, a: seq<Column>, i: nat, b: seq<Column>, j: nat, k: nat, m: real)
    requires SameEntries(a, i, b, j) && k <= |a| && |a| == |b|
    ensures Weight(e, Kept(a, 0, k), m) == Weight(e, Kept(b, 0, k), m)
    ensures Weighted(e, Kept(a, 0, k), m, i) == Weighted(e, Kept(b, 0, k), m, j)
  {
    hide *;
    if k == 0 {
      EmptyKept(e, a, m, i);
      EmptyKept(e, b, m, j);
    } else {
      SameEntriesSum(e, a, i, b, j, k - 1, m);
      EntryAgrees(a, i, b, j, k - 1);
      NextKept(e, a, k, m, i);
      NextKept(e, b, k, m, j);
    }
  }

  lemma ShiftedColumn(e: real -> real, scores: seq<real>, rows: seq<seq<real>>, valid: seq<bool>, start: nat, m: real, d: nat)
    requires |scores| == |rows| == |valid|
    ensures var here := Kept(MaskedColumns(scores, RowsFrom(rows, start), valid), 0, |rows|);
            var whole := Kept(MaskedColumns(scores, rows, valid), 0, |rows|);
            && Weight(e, here, m) == Weight(e, whole, m)
            && Weighted(e, here, m, d) == Weighted(e, whole, m, start + d)
  {
    hide Kept, Weight, Weighted;
    var here, whole := MaskedColumns(scores, RowsFrom(rows, start), valid), MaskedColumns(scores, rows, valid);
    forall c | 0 <= c < |rows|
      ensures here[c].score == whole[c].score && At(here[c].row, d) == At(whole[c].row, start + d)
    {
      ShiftedEntry(scores, rows, valid, start, c, d);
    }
    SameEntriesSum(e, here, d, whole, start + d, |rows|, m);
  }

  lemma EmptyKept(e: real -> real, cols: seq<Column>, m: real, d: nat)
    ensures Weight(e, Kept(cols, 0, 0), m) == 0.0 == Weighted(e, Kept(cols, 0, 0), m, d)
  {}

  lemma NextKept(e: real -> real, cols: seq<Column>, k: nat, m: real, d: nat)
    requires 0 < k <= |cols|
    ensures Weight(e, Kept(cols, 0, k), m) == Weight(e, Kept(cols, 0, k - 1), m) + ExpFrom(e, cols[k - 1].score, m)
    ensures Weighted(e, Kept(cols, 0, k), m, d)
         == Weighted(e, Kept(cols, 0, k - 1), m, d) + Times(At(cols[k - 1].row, d), ExpFrom(e, cols[k - 1].score, m))
  {
    assert ColumnAt(cols, k - 1) == cols[k - 1];
    hide *;
    KeptNext(cols, 0, k);
    LaneKeeps(e, cols[k - 1], m, d);
    WeightAppend(e, Kept(cols, 0, k - 1), KeptAt(cols[k - 1]), m);
    WeightedAppend(e, Kept(cols, 0, k - 1), KeptAt(cols[k - 1]), m, d);
  }

  /** _finish_materialized_scores_with_sink_value_block_kernel: the running form, one program per
      block of value columns. */
  method ValueBlocksWithSink(e: real -> real, scores: seq<real>, rows: seq<seq<real>>, valid: seq<bool>, sink: Score, width: nat, blockD: nat)
    returns (out: seq<real>)
    requires IsExp(e) && |scores| == |rows| == |valid| && blockD > 0
    ensures out == SinkOutput(e, Kept(MaskedColumns(scores, rows, valid), 0, |rows|), sink, width)
  {
    hide SinkColumn, MaskedColumns, RowsFrom, Kept, IsExp;
    ghost var cs := Kept(MaskedColumns(scores, rows, valid), 0, |rows|);
    out := [];
    while |out| < width
      invariant |out| <= width
      invariant forall d :: 0 <= d < |out| ==> out[d] == SinkColumn(e, cs, sink, d)
    {
      var start := |out|;
      var size := if start + blockD < width then blockD else width - start;
      var here := RowsFrom(rows, start);
      var block := RunningWithSink(e, scores, here, valid, sink, size);
      forall d | 0 <= d < size ensures block[d] == SinkColumn(e, cs, sink, start + d) {
        ShiftedSink(e, scores, rows, valid, sink, start, d);
      }
      out := out + block;
    }
  }

  lemma ShiftedSink(e: real -> real, scores: seq<real>, rows: seq<seq<real>>, valid: seq<bool>, sink: Score, start: nat, d: nat)
    requires |scores| == |rows| == |valid|
    ensures SinkColumn(e, Kept(MaskedColumns(scores, RowsFrom(rows, start), valid), 0, |rows|), sink, d)
         == SinkColumn(e, Kept(MaskedColumns(scores, rows, valid), 0, |rows|), sink, start + d)
  {
    hide *;
    ShiftedColumn(e, scores, rows, valid, start, 0.0, d);
    SameSums(e, Kept(MaskedColumns(scores, RowsFrom(rows, start), valid), 0, |rows|), d,
             Kept(MaskedColumns(scores, rows, valid), 0, |rows|), start + d, sink);
  }

  lemma SameSums(e: real -> real, a: seq<Candidate>, i: nat, b: seq<Candidate>, j: nat, sink: Score)
    requires Weight(e, a, 0.0) == Weight(e, b, 0.0) && Weighted(e, a, 0.0, i) == Weighted(e, b, 0.0, j)
    ensures SinkColumn(e, a, sink, i) == SinkColumn(e, b, sink, j)
  {}

  /** _finish_materialized_scores_with_sink_candidate_block_kernel: one pass for the maximum, a second
      for the sums.  Unlike the running forms it is not a number when there is neither a valid
      candidate nor a sink. */
  method TwoPassWithSink(e: real -> real, scores: seq<real>, rows: seq<seq<real>>, valid: seq<bool>, sink: Score, width: nat, blockK: nat)
    returns (out: Output)
    requires IsExp(e) && |scores| == |rows| == |valid| && blockK > 0
    ensures var cs := Kept(MaskedColumns(scores, rows, valid), 0, |rows|);
            out == if cs == [] && sink.NegInf? then NotANumber else Values(SinkOutput(e, cs, sink, width))
  {
    hide IsExp, Kept, TileScores, TileWeights, TileProducts, SinkColumn, Columns, Weight, Weighted, ExpFrom, MaxOf, Sum, Ratio, Top, AddBlock;
    var cols := MaskedColumns(scores, rows, valid);
    NothingYet(e, cols, 0.0, width);
    var maxScore := sink;
    var start := 0;
    while start < |rows|
      invariant maxScore == MaxScore(sink, Top(Kept(cols, 0, start)))
    {
      TileTopAppends(cols, start, blockK);
      maxScore := MaxScore(maxScore, MaxOf(TileScores(cols, start, blockK)));
      start := start + blockK;
    }
    KeptMasked(cols, 0, |rows|, start);
    ghost var cs := Kept(cols, 0, |rows|);
    TopIsMaximum(cs);
    if maxScore.NegInf? { return NotANumber; }
    var m := maxScore.v;
    NothingYet(e, cols, m, width);
    var denom, acc := ExpFrom(e, sink, m), Zeros(width);
    start := 0;
    while start < |rows|
      invariant denom == ExpFrom(e, sink, m) + Weight(e, Kept(cols, 0, start), m)
      invariant acc == Columns(e, Kept(cols, 0, start), m, width)
    {
      var weights := TileWeights(e, TileScores(cols, start, blockK), m);
      SumsGrow(e, cols, start, blockK, m);
      BlockAppends(e, cols, start, blockK, m, width);
      denom := denom + Sum(weights);
      acc := AddBlock(cols, acc, start, weights);
      start := start + blockK;
    }
    KeptMasked(cols, 0, |rows|, start);
    SumsPositive(e, cs, sink, m);
    forall d | 0 <= d < width ensures acc[d] / denom == SinkColumn(e, cs, sink, d) {
      SinkColumnAtBase(e, cs, sink, m, d);
      RatioDivides(acc[d], denom);
    }
    var total := denom;
    out := Values(seq(width, d requires 0 <= d < width => At(acc, d) / total));
    assert out.values == SinkOutput(e, cs, sink, width);
  }

  lemma SumsPositive(e: real -> real, cs: seq<Candidate>, sink: Score, m: real)
    requires IsExp(e) && (cs != [] || sink.Fin?)
    ensures ExpFrom(e, sink, m) + Weight(e, cs, m) > 0.0
  {
    hide Weight, ExpFrom;
    WeightNonNegative(e, cs, m);
    ExpFromPositive(e, sink, m);
  }

  lemma NothingYet(e: real -> real, cols: seq<Column>, m: real, width: nat)
    ensures Top(Kept(cols, 0, 0)) == NegInf
    ensures Weight(e, Kept(cols, 0, 0), m) == 0.0
    ensures Zeros(width) == Columns(e, Kept(cols, 0, 0), m, width)
  {}

  lemma SumsGrow(e: real -> real, cols: seq<Column>, start: nat, k: nat, m: real)
    ensures Weight(e, Kept(cols, 0, start + k), m)
         == Weight(e, Kept(cols, 0, start), m) + Sum(TileWeights(e, TileScores(cols, start, k), m))
  {
    hide *;
    KeptJoin(cols, 0, start, start + k);
    TileWeight(e, cols, start, k, m);
    WeightAppend(e, Kept(cols, 0, start), Kept(cols, start, start + k), m);
  }
}
