/** The two drop-in entry points: sparse prefill over rows, and sparse decode over the paged cache,
    which attends either fused or gathered first. */
module SparseForward {
  import opened Wrappers
  import opened Softmax
  import opened IndexedAttention
  import opened SinkFinish

  const FUSED_BLOCK_N: nat := 32
  const CLAMP_MIN: real := 0.000000000000000000000000000001

  /** What one (token, head) gets back. */
  datatype Attention = Attention(output: seq<real>, maxLogit: Score, lse: Score)

  /** An absent topk_length caps nothing, an absent sink has no effect. */
  function Capped(p: Problem, topkLength: Option<int>): Problem {
    p.(lens := match topkLength case None => |p.indices| case Some(n) => n)
  }

  function SinkScore(sink: Option<Score>): Score {
    match sink case None => NegInf case Some(s) => s
  }

  /** The documented result: softmax over the valid candidates of the capped list, values the first
      512 columns, the sink in the denominator only. */
  function Reference(e: real -> real, l: real -> real, p: Problem, sink: Score): Attention {
    var cs := AllCells(p);
    Attention(SinkOutput(e, cs, sink, NOPE_DIM), Top(cs), if cs == [] then NegInf else Fin(l(Weight(e, cs, 0.0))))
  }

  /** log(denom.clamp_min(1e-30)) + max, -inf for an empty state. */
  function LseOf(l: real -> real, st: State): Score {
    if st.denom > 0.0 && st.max.Fin? then
      Fin(l(if st.denom < CLAMP_MIN then CLAMP_MIN else st.denom) + st.max.v)
    else NegInf
  }

  /** The clamp never bites: a non-empty state has a denominator of at least one. */
  lemma LseCorrect(e: real -> real, l: real -> real, cs: seq<Candidate>, width: nat)
    requires IsExp(e) && IsLog(e, l)
    ensures LseOf(l, Direct(e, cs, width)) == if cs == [] then NegInf else Fin(l(Weight(e, cs, 0.0)))
  {
    DirectValidMax(e, cs, width);
    if cs != [] {
      WeightAtTop(e, cs);
      LseIsLogSumExp(e, l, cs, width);
    }
  }

  lemma OutputCorrect(e: real -> real, cs: seq<Candidate>, width: nat, sink: Score)
    requires IsExp(e) && width >= NOPE_DIM
    ensures var st := Direct(e, cs, width);
            FinishWithSink(e, st.(acc := st.acc[..NOPE_DIM]), sink) == SinkOutput(e, cs, sink, NOPE_DIM)
  {
    hide *;
    NarrowedDirect(e, cs, NOPE_DIM, width);
    FinishWithSinkCorrect(e, cs, sink, NOPE_DIM);
  }

  /** Reading one slot out: the maximum, the log-sum-exp and the finished output. */
  method ReadOut(e: real -> real, l: real -> real, ghost p: Problem, slot: Slot, sink: Score) returns (r: Attention)
    requires IsExp(e) && IsLog(e, l) && slot.acc.Length >= NOPE_DIM
    requires slot.Value() == Direct(e, AllCells(p), slot.acc.Length)
    ensures r == Reference(e, l, p, sink)
  {
    var st := slot.Value();
    DirectValidMax(e, AllCells(p), slot.acc.Length);
    LseCorrect(e, l, AllCells(p), slot.acc.Length);
    OutputCorrect(e, AllCells(p), slot.acc.Length, sink);
    hide Direct, AllCells, FinishWithSink, LseOf, SinkOutput, IsExp, IsLog;
    r := Attention(FinishWithSink(e, st.(acc := slot.acc[..NOPE_DIM]), sink), st.max, LseOf(l, st));
  }

  /** flash_mla_sparse_fwd_triton.  Rows of any width of at least the value columns will do. */
  method SparsePrefill(e: real -> real, l: real -> real, p: Problem, topkLength: Option<int>, attnSink: Option<Score>)
    returns (r: Attention)
    requires IsExp(e) && IsLog(e, l) && |p.q| >= NOPE_DIM
    ensures r == Reference(e, l, p.(lens := if topkLength.Some? then topkLength.value else |p.indices|),
                           if attnSink.Some? then attnSink.value else NegInf)
  {
    hide Direct, Accumulate, AllCells, Reference, IsExp, IsLog;
    var capped := Capped(p, topkLength);
    var slot := new Slot(|p.q|);
    StartsEmpty(e, |p.q|);
    AccumulateIndexedChunk(e, capped, 0, slot);
    assert capped.(lens := capped.lens - 0) == capped;
    AccumulateIsDirect(e, [], AllCells(capped), |p.q|);
    assert [] + AllCells(capped) == AllCells(capped);
    r := ReadOut(e, l, capped, slot, SinkScore(attnSink));
  }

  lemma StartsEmpty(e: real -> real, width: nat)
    ensures EmptyState(width) == Direct(e, [], width)
  {}

  /** flash_mla_with_kvcache_triton: the same result whichever way the fused switch stands. */
  method SparseDecode(e: real -> real, l: real -> real, p: Problem, topkLength: Option<int>, attnSink: Option<Score>, fused: bool)
    returns (r: Attention)
    requires IsExp(e) && IsLog(e, l) && FullRows(p)
    ensures r == Reference(e, l, p.(lens := if topkLength.Some? then topkLength.value else |p.indices|),
                           if attnSink.Some? then attnSink.value else NegInf)
  {
    hide Direct, AllCells, Reference, IsExp, IsLog;
    var capped := Capped(p, topkLength);
    var slot;
    if fused {
      slot := new Slot(NOPE_DIM);
      FusedAttention(e, capped, FUSED_BLOCK_N, slot);
    } else {
      slot := new Slot(|p.q|);
      GatherThenAttend(e, capped, slot);
    }
    r := ReadOut(e, l, capped, slot, SinkScore(attnSink));
  }
}
