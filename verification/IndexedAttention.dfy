/** The sparse attention kernels that walk a list of candidate rows: one candidate at a time
    (indexed and materialized), and tile by tile with the score and value columns split.
    Each is proved to end in the direct softmax state of the valid candidates.

    One program of the launch grid is modelled, that is one token and one head. */
module IndexedAttention {
  import opened Softmax
  import opened Lanes

  const NOPE_DIM: nat := 512
  const ROPE_DIM: nat := 64

  /** What one (token, head) attends to. */
  datatype Problem = Problem(q: seq<real>, kv: seq<seq<real>>, indices: seq<int>, lens: int, scale: real)

  predicate InRange(p: Problem, c: nat)
    requires c < |p.indices|
  {
    0 <= p.indices[c] < |p.kv|
  }

  function ScoreOf(q: seq<real>, scale: real, row: seq<real>): real {
    Times(Dot(q, row), scale)
  }

  function RowColumn(q: seq<real>, scale: real, row: seq<real>): Column {
    Column(Fin(ScoreOf(q, scale, row)), row)
  }

  /** A column counts when it lies below `lens` and its index names a row. */
  function ColumnOf(p: Problem, c: nat): Column
    requires c < |p.indices|
  {
    if c < p.lens && InRange(p, c) then RowColumn(p.q, p.scale, p.kv[p.indices[c]]) else MASKED
  }

  function ColumnsOf(p: Problem): (cols: seq<Column>)
    ensures |cols| == |p.indices| && forall c :: 0 <= c < |cols| ==> cols[c] == ColumnOf(p, c)
  {
    seq(|p.indices|, c requires 0 <= c < |p.indices| => ColumnOf(p, c))
  }

  /** The valid candidates among the first k columns. */
  function Cells(p: Problem, k: nat): seq<Candidate> {
    Kept(ColumnsOf(p), 0, k)
  }

  function AllCells(p: Problem): seq<Candidate> {
    Cells(p, |p.indices|)
  }

  /** What a problem attends to, index by index: a further index below `lens` that names a row adds that
      row with `score`, the dot product of query and row times the scale; any other index adds nothing. */
  lemma AppendedIndex(p: Problem, index: int, score: real)
    requires 0 <= index < |p.kv| ==> score == Dot(p.q, p.kv[index]) * p.scale
    ensures AllCells(p.(indices := p.indices + [index]))
         == AllCells(p) + if |p.indices| < p.lens && 0 <= index < |p.kv| then [Candidate(score, p.kv[index])] else []
  {
    var n, more := |p.indices|, p.(indices := p.indices + [index]);
    forall c | 0 <= c < n ensures ColumnOf(more, c) == ColumnOf(p, c) {
      assert more.indices[c] == p.indices[c];
    }
    LastColumn(p, index, score);
    hide ColumnOf, KeptAt, Kept, Dot;
    assert ColumnsOf(more) == ColumnsOf(p) + [ColumnOf(more, n)];
    KeptSnoc(ColumnsOf(p), ColumnOf(more, n));
  }

  lemma ScorePlainly(q: seq<real>, scale: real, row: seq<real>, score: real)
    requires score == Dot(q, row) * scale
    ensures RowColumn(q, scale, row) == Column(Fin(score), row)
  {
    hide Dot;
  }

  lemma LastColumn(p: Problem, index: int, score: real)
    requires 0 <= index < |p.kv| ==> score == Dot(p.q, p.kv[index]) * p.scale
    ensures var n, more := |p.indices|, p.(indices := p.indices + [index]);
      KeptAt(ColumnOf(more, n)) == if n < p.lens && 0 <= index < |p.kv| then [Candidate(score, p.kv[index])] else []
  {
    hide RowColumn, Dot;
    assert p.(indices := p.indices + [index]).indices[|p.indices|] == index;
    if 0 <= index < |p.kv| {
      ScorePlainly(p.q, p.scale, p.kv[index], score);
    }
  }

  lemma NoIndices(p: Problem)
    requires p.indices == []
    ensures AllCells(p) == []
  {}

  /** Columns at or past `lens` hold nothing. */
  lemma CellsPastLens(p: Problem, b: nat, c: nat)
    requires b <= c
    requires b >= p.lens || b >= |p.indices|
    ensures Cells(p, c) == Cells(p, b)
  {
    KeptMasked(ColumnsOf(p), 0, b, c);
  }

  /** A chunk of the columns, as a problem of its own whose `lens` counts from the chunk's start. */
  function Chunk(p: Problem, start: nat, end: nat): Problem
    requires start <= end <= |p.indices|
  {
    p.(indices := p.indices[start..end], lens := p.lens - start)
  }

  lemma ChunkColumn(p: Problem, start: nat, end: nat, t: nat)
    requires start <= end <= |p.indices| && t < end - start
    ensures ColumnOf(Chunk(p, start, end), t) == ColumnOf(p, start + t)
  {
    hide RowColumn;
    assert Chunk(p, start, end).indices[t] == p.indices[start + t];
  }

  lemma ChunkColumns(p: Problem, start: nat, end: nat)
    requires start <= end <= |p.indices|
    ensures ColumnsOf(Chunk(p, start, end)) == ColumnsOf(p)[start..end]
  {
    hide ColumnOf;
    forall t: nat | t < end - start ensures ColumnsOf(Chunk(p, start, end))[t] == ColumnsOf(p)[start..end][t] {
      ChunkColumn(p, start, end, t);
    }
  }

  lemma ChunkCells(p: Problem, start: nat, end: nat)
    requires start <= end <= |p.indices|
    ensures AllCells(Chunk(p, start, end)) == Kept(ColumnsOf(p), start, end)
  {
    hide ColumnsOf, ColumnOf, Kept;
    var k := end - start;
    assert AllCells(Chunk(p, start, end)) == Kept(ColumnsOf(Chunk(p, start, end)), 0, k);
    assert start + k == end;
    hide *;
    ChunkColumns(p, start, end);
    KeptSlice(ColumnsOf(p), start, end, k);
  }

  // ----- one candidate at a time -----

  /** The loop body shared by the one-at-a-time kernels. */
  function Step(e: real -> real, st: State, score: real, row: seq<real>): State {
    var next := MaxScore(st.max, Fin(score)).v;
    State(Fin(next),
          Rescaled(e, st.denom, st.max, next) + e(score - next),
          seq(|st.acc|, d requires 0 <= d < |st.acc| =>
                Rescaled(e, st.acc[d], st.max, next) + Share(e, score, row, next, d)))
  }

  function Accumulate(e: real -> real, st: State, cs: seq<Candidate>): State {
    if cs == [] then st
    else
      var last := cs[|cs| - 1];
      Step(e, Accumulate(e, st, cs[..|cs| - 1]), last.score, last.value)
  }

  lemma StepAppends(e: real -> real, cs: seq<Candidate>, c: Candidate, width: nat)
    requires IsExp(e)
    ensures Step(e, Direct(e, cs, width), c.score, c.value) == Direct(e, cs + [c], width)
  {
    TopOfAppend(cs, [c]);
    var n := Top(cs + [c]).v;
    AppendedDenom(e, cs, [c], width, n);
    var stepped := Step(e, Direct(e, cs, width), c.score, c.value);
    forall d | 0 <= d < width ensures stepped.acc[d] == Weighted(e, cs + [c], n, d) {
      AppendedColumn(e, cs, [c], width, n, d);
    }
    assert stepped.acc == Columns(e, cs + [c], n, width);
  }

  /** The recurrence, started from the state of `prior`, ends in the direct state of everything. */
  lemma {:induction false} AccumulateIsDirect(e: real -> real, prior: seq<Candidate>, cs: seq<Candidate>, width: nat)
    requires IsExp(e)
    ensures Accumulate(e, Direct(e, prior, width), cs) == Direct(e, prior + cs, width)
  {
    if cs == [] {
      assert prior + cs == prior;
    } else {
      var front, last := cs[..|cs| - 1], cs[|cs| - 1];
      AccumulateIsDirect(e, prior, front, width);
      StepAppends(e, prior + front, last, width);
      assert prior + front + [last] == prior + cs;
    }
  }

  lemma AccumulateColumn(e: real -> real, st: State, cs: seq<Candidate>, col: Column)
    ensures Accumulate(e, st, cs + KeptAt(col))
         == match col.score
            case NegInf => Accumulate(e, st, cs)
            case Fin(s) => Step(e, Accumulate(e, st, cs), s, col.row)
  {
    var kept := KeptAt(col);
    if col.score.Fin? {
      assert (cs + kept)[..|cs|] == cs;
    } else {
      assert cs + kept == cs;
    }
  }

  lemma {:induction false} AccumulateSameWidth(e: real -> real, st: State, cs: seq<Candidate>)
    ensures |Accumulate(e, st, cs).acc| == |st.acc|
  {
    if cs != [] { AccumulateSameWidth(e, st, cs[..|cs| - 1]); }
  }

  /** One (token, head) slot of the max_score, denom and acc buffers. */
  class Slot {
    var maxScore: Score
    var denom: real
    const acc: array<real>

    /** The buffers as the wrappers prepare them: -inf, zero and zeros. */
    constructor (width: nat)
      ensures fresh(acc) && acc.Length == width
      ensures Value() == EmptyState(width)
    {
      maxScore, denom := NegInf, 0.0;
      acc := new real[width](_ => 0.0);
      new;
      assert acc[..] == Zeros(width);
    }

    function Value(): State
      reads this, acc
    {
      State(maxScore, denom, acc[..])
    }

    method Store(st: State)
      requires |st.acc| == acc.Length
      modifies this, acc
      ensures Value() == st
    {
      maxScore, denom := st.max, st.denom;
      forall d | 0 <= d < acc.Length { acc[d] := st.acc[d]; }
      assert acc[..] == st.acc;
    }
  }

  /** accumulate_indexed_sparse_mla_attention_chunk: `p` holds the chunk's own indices, `p.lens`
      the length of the whole candidate list, `candidateOffset` the width of earlier chunks. */
  method AccumulateIndexedChunk(e: real -> real, p: Problem, candidateOffset: nat, slot: Slot)
    modifies slot, slot.acc
    ensures slot.Value()
         == Accumulate(e, old(slot.Value()), AllCells(p.(lens := p.lens - candidateOffset)))
  {
    ghost var local := p.(lens := p.lens - candidateOffset);
    ghost var start := slot.Value();
    var running := slot.Value();
    var room := if p.lens - candidateOffset > 0 then p.lens - candidateOffset else 0;
    var localEff := if |p.indices| < room then |p.indices| else room;
    for c := 0 to localEff
      invariant running == Accumulate(e, start, Cells(local, c))
    {
      AccumulateColumn(e, start, Cells(local, c), ColumnOf(local, c));
      var kvIndex := p.indices[c];
      if kvIndex >= 0 && kvIndex < |p.kv| {
        running := Step(e, running, ScoreOf(p.q, p.scale, p.kv[kvIndex]), p.kv[kvIndex]);
      }
    }
    CellsPastLens(local, localEff, |p.indices|);
    AccumulateSameWidth(e, start, AllCells(local));
    slot.Store(running);
  }

  lemma ChunkContinues(e: real -> real, p: Problem, start: nat, end: nat, width: nat)
    requires IsExp(e) && start <= end <= |p.indices|
    ensures Accumulate(e, Direct(e, Cells(p, start), width), AllCells(Chunk(p, start, end)))
         == Direct(e, Cells(p, end), width)
  {
    ChunkCells(p, start, end);
    AccumulateIsDirect(e, Cells(p, start), Kept(ColumnsOf(p), start, end), width);
    KeptJoin(ColumnsOf(p), 0, start, end);
  }

  /** Accumulation is resumable: cut the columns anywhere, carry the state in the buffers, pass the
      width so far as the offset, and the final state is the direct one over all valid candidates. */
  method AccumulateInChunks(e: real -> real, p: Problem, widths: seq<nat>, slot: Slot)
    requires IsExp(e)
    requires slot.Value() == EmptyState(slot.acc.Length)
    modifies slot, slot.acc
    ensures slot.Value() == Direct(e, Cells(p, Covered(widths, |p.indices|)), slot.acc.Length)
  {
    ghost var width := slot.acc.Length;
    var offset := 0;
    for k := 0 to |widths|
      invariant offset == Covered(widths[..k], |p.indices|)
      invariant slot.Value() == Direct(e, Cells(p, offset), width)
    {
      var end := if offset + widths[k] < |p.indices| then offset + widths[k] else |p.indices|;
      CoveredNext(widths, |p.indices|, k);
      ChunkContinues(e, p, offset, end, width);
      var chunk := Chunk(p, offset, end).(lens := p.lens);
      assert chunk.(lens := chunk.lens - offset) == Chunk(p, offset, end);
      AccumulateIndexedChunk(e, chunk, offset, slot);
      offset := end;
    }
    assert widths[..|widths|] == widths;
  }

  function TotalWidth(widths: seq<nat>): nat {
    if widths == [] then 0 else TotalWidth(widths[..|widths| - 1]) + widths[|widths| - 1]
  }

  /** How many of `total` columns chunks of these widths cover: all of them once they are wide enough. */
  function Covered(widths: seq<nat>, total: nat): nat {
    if TotalWidth(widths) < total then TotalWidth(widths) else total
  }

  lemma CoveredNext(widths: seq<nat>, total: nat, k: nat)
    requires k < |widths|
    ensures var before := Covered(widths[..k], total);
            Covered(widths[..k + 1], total) == if before + widths[k] < total then before + widths[k] else total
  {
    assert widths[..k + 1][..k] == widths[..k];
  }

  // ----- gathered rows -----

  /** The gather ahead of the materialized kernel: rows by index, zeros where the index is invalid. */
  function GatheredRows(p: Problem): seq<seq<real>> {
    seq(|p.indices|, c requires 0 <= c < |p.indices| => if InRange(p, c) then p.kv[p.indices[c]] else Zeros(|p.q|))
  }

  /** Its validity mask, capped at `lens` by the wrapper. */
  function GatheredMask(p: Problem): seq<bool> {
    seq(|p.indices|, c requires 0 <= c < |p.indices| => InRange(p, c) && c < p.lens)
  }

  /** A masked list of rows with their scores, as columns. */
  function MaskedColumns(scores: seq<real>, rows: seq<seq<real>>, valid: seq<bool>): (cols: seq<Column>)
    requires |scores| == |rows| == |valid|
    ensures |cols| == |rows|
    ensures forall c :: 0 <= c < |cols| ==> cols[c] == if valid[c] then Column(Fin(scores[c]), rows[c]) else MASKED
  {
    seq(|rows|, c requires 0 <= c < |rows| => if valid[c] then Column(Fin(scores[c]), rows[c]) else MASKED)
  }

  function RowScores(q: seq<real>, scale: real, rows: seq<seq<real>>): (r: seq<real>)
    ensures |r| == |rows| && forall c :: 0 <= c < |r| ==> r[c] == ScoreOf(q, scale, rows[c])
  {
    seq(|rows|, c requires 0 <= c < |rows| => ScoreOf(q, scale, rows[c]))
  }

  /** _materialized_attn_kernel over rows that were gathered beforehand. */
  method MaterializedAttention(e: real -> real, q: seq<real>, rows: seq<seq<real>>, valid: seq<bool>, scale: real, slot: Slot)
    requires |rows| == |valid|
    modifies slot, slot.acc
    ensures slot.Value()
         == Accumulate(e, EmptyState(slot.acc.Length), Kept(MaskedColumns(RowScores(q, scale, rows), rows, valid), 0, |rows|))
  {
    ghost var cols := MaskedColumns(RowScores(q, scale, rows), rows, valid);
    ghost var start := EmptyState(slot.acc.Length);
    var running := EmptyState(slot.acc.Length);
    for c := 0 to |rows|
      invariant running == Accumulate(e, start, Kept(cols, 0, c))
    {
      AccumulateColumn(e, start, Kept(cols, 0, c), cols[c]);
      if valid[c] {
        var kv := rows[c];
        running := Step(e, running, ScoreOf(q, scale, kv), kv);
      }
    }
    AccumulateSameWidth(e, start, Kept(cols, 0, |rows|));
    slot.Store(running);
  }

  /** Gather first, attend afterwards: the path the fused kernel replaces. */
  method GatherThenAttend(e: real -> real, p: Problem, slot: Slot)
    requires IsExp(e)
    modifies slot, slot.acc
    ensures slot.Value() == Direct(e, AllCells(p), slot.acc.Length)
  {
    var rows, mask := GatheredRows(p), GatheredMask(p);
    MaterializedAttention(e, p.q, rows, mask, p.scale, slot);
    assert MaskedColumns(RowScores(p.q, p.scale, rows), rows, mask) == ColumnsOf(p);
    AccumulateIsDirect(e, [], AllCells(p), slot.acc.Length);
    assert [] + AllCells(p) == AllCells(p);
  }

  // ----- tile by tile -----

  predicate FullRows(p: Problem) {
    |p.q| == NOPE_DIM + ROPE_DIM && forall r <- p.kv :: |r| == NOPE_DIM + ROPE_DIM
  }

  /** The fused kernel's score of a lane: two dot products over the NoPE and RoPE columns, -inf where
      the lane is past the end, past `lens` or out of range. */
  function FusedScore(p: Problem, c: nat): Score
    requires FullRows(p)
  {
    if c < |p.indices| && c < p.lens && InRange(p, c) then
      var row := p.kv[p.indices[c]];
      Fin(Times(Dot(p.q[..NOPE_DIM], row[..NOPE_DIM]) + Dot(p.q[NOPE_DIM..], row[NOPE_DIM..]), p.scale))
    else NegInf
  }

  function FusedScores(p: Problem, n0: nat, k: nat): (r: seq<Score>)
    requires FullRows(p)
    ensures |r| == k && forall j :: 0 <= j < k ==> r[j] == FusedScore(p, n0 + j)
  {
    seq(k, j requires 0 <= j => FusedScore(p, n0 + j))
  }

  lemma SplitDotKeepsScores(p: Problem, n0: nat, k: nat)
    requires FullRows(p)
    ensures FusedScores(p, n0, k) == TileScores(ColumnsOf(p), n0, k)
  {
    hide Dot, Times;
    forall j | 0 <= j < k ensures FusedScores(p, n0, k)[j] == TileScores(ColumnsOf(p), n0, k)[j] {
      var c := n0 + j;
      if c < |p.indices| && c < p.lens && InRange(p, c) {
        DotSplit(p.q, p.kv[p.indices[c]], NOPE_DIM);
      }
    }
  }

  function TileBase(st: State, scores: seq<Score>): real {
    match MaxScore(st.max, MaxOf(scores))
    case NegInf => 0.0
    case Fin(m) => m
  }

  function TileAcc(e: real -> real, st: State, cols: seq<Column>, n0: nat, weights: seq<real>, base: real): (r: seq<real>)
    ensures |r| == |st.acc|
    ensures forall d :: 0 <= d < |r| ==> r[d] == Rescaled(e, st.acc[d], st.max, base) + Sum(TileProducts(cols, n0, weights, d))
  {
    seq(|st.acc|, d requires 0 <= d < |st.acc| =>
          Rescaled(e, st.acc[d], st.max, base) + Sum(TileProducts(cols, n0, weights, d)))
  }

  /** The body of the tile loop.  While nothing valid has been seen the base is 0, so that no
      infinite difference is taken. */
  function TileStep(e: real -> real, st: State, cols: seq<Column>, scores: seq<Score>, n0: nat): State {
    var base := TileBase(st, scores);
    var weights := TileWeights(e, scores, base);
    State(MaxScore(st.max, MaxOf(scores)),
          Rescaled(e, st.denom, st.max, base) + Sum(weights),
          TileAcc(e, st, cols, n0, weights, base))
  }

  lemma TileColumnAppends(e: real -> real, cols: seq<Column>, n0: nat, k: nat, width: nat, base: real, d: nat)
    requires IsExp(e) && d < width
    ensures TileAcc(e, Direct(e, Kept(cols, 0, n0), width), cols, n0, TileWeights(e, TileScores(cols, n0, k), base), base)[d]
         == Weighted(e, Kept(cols, 0, n0 + k), base, d)
  {
    hide *;
    TileColumn(e, cols, n0, k, base, d);
    AppendedColumn(e, Kept(cols, 0, n0), Kept(cols, n0, n0 + k), width, base, d);
    KeptJoin(cols, 0, n0, n0 + k);
  }

  lemma TileTopAppends(cols: seq<Column>, n0: nat, k: nat)
    ensures Top(Kept(cols, 0, n0 + k)) == MaxScore(Top(Kept(cols, 0, n0)), MaxOf(TileScores(cols, n0, k)))
  {
    KeptJoin(cols, 0, n0, n0 + k);
    TopAppend(Kept(cols, 0, n0), Kept(cols, n0, n0 + k));
    TileTop(cols, n0, k);
  }

  /** One tile appends the tile's valid candidates; an all-invalid tile changes nothing. */
  lemma TileStepAppends(e: real -> real, cols: seq<Column>, n0: nat, k: nat, width: nat)
    requires IsExp(e)
    ensures TileStep(e, Direct(e, Kept(cols, 0, n0), width), cols, TileScores(cols, n0, k), n0)
         == Direct(e, Kept(cols, 0, n0 + k), width)
  {
    hide Kept, TileScores, TileWeights, TileProducts, Rescaled, Sum, MaxOf, IsExp;
    var a, b, ab := Kept(cols, 0, n0), Kept(cols, n0, n0 + k), Kept(cols, 0, n0 + k);
    var before, whole := Direct(e, a, width), Direct(e, ab, width);
    var scores := TileScores(cols, n0, k);
    TileTopAppends(cols, n0, k);
    var base := TileBase(before, scores);
    var weights := TileWeights(e, scores, base);
    KeptJoin(cols, 0, n0, n0 + k);
    TileWeight(e, cols, n0, k, base);
    AppendedDenom(e, a, b, width, base);
    var acc := TileAcc(e, before, cols, n0, weights, base);
    forall d | 0 <= d < width ensures acc[d] == Weighted(e, ab, base, d) {
      TileColumnAppends(e, cols, n0, k, width, base, d);
    }
    TopIsMaximum(ab);
    assert acc == whole.acc;
  }

  lemma FusedStepAppends(e: real -> real, p: Problem, n0: nat, k: nat)
    requires IsExp(e) && FullRows(p)
    ensures TileStep(e, Direct(e, Cells(p, n0), NOPE_DIM), ColumnsOf(p), FusedScores(p, n0, k), n0)
         == Direct(e, Cells(p, n0 + k), NOPE_DIM)
  {
    SplitDotKeepsScores(p, n0, k);
    TileStepAppends(e, ColumnsOf(p), n0, k, NOPE_DIM);
    hide TileStep, FusedScores, ColumnsOf, Kept, Direct;
  }

  lemma NoCells(e: real -> real, p: Problem, width: nat)
    ensures EmptyState(width) == Direct(e, Cells(p, 0), width)
  {}

  /** _fused_gather_dequant_attn_kernel: candidate tiles of `blockN` columns, the value columns
      limited to the NoPE block. */
  method FusedAttention(e: real -> real, p: Problem, blockN: nat, slot: Slot)
    requires IsExp(e) && FullRows(p) && blockN > 0 && slot.acc.Length == NOPE_DIM
    modifies slot, slot.acc
    ensures slot.Value() == Direct(e, AllCells(p), NOPE_DIM)
  {
    hide TileStep, FusedScores, FusedScore, ColumnOf, ColumnsOf, Direct, Cells;
    var cols := ColumnsOf(p);
    var running := EmptyState(NOPE_DIM);
    NoCells(e, p, NOPE_DIM);
    var n0 := 0;
    while n0 < |p.indices|
      invariant running == Direct(e, Cells(p, n0), NOPE_DIM)
    {
      FusedStepAppends(e, p, n0, blockN);
      running := TileStep(e, running, cols, FusedScores(p, n0, blockN), n0);
      n0 := n0 + blockN;
    }
    CellsPastLens(p, |p.indices|, n0);
    slot.Store(running);
  }

  /** The state's columns do not depend on how many of them are kept: attending over all columns and
      slicing the first k off is attending over k columns. */
  lemma NarrowedDirect(e: real -> real, cs: seq<Candidate>, k: nat, width: nat)
    requires k <= width
    ensures var wide := Direct(e, cs, width);
            wide.(acc := wide.acc[..k]) == Direct(e, cs, k)
  {
    var wide := Direct(e, cs, width);
    assert wide.acc[..k] == Direct(e, cs, k).acc;
  }
}
