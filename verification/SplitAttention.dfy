/** The d512 split path: separate score, stats and value passes over a chunk of candidates, and the
    driver that merges chunk after chunk into the running state.

    Unlike the scalar kernels, the split passes do not skip an out-of-range index below `lens`: they
    give it a zero row.  `SplitAgreesIff` says exactly when the two paths agree. */
module SplitAttention {
  import opened Softmax
  import opened Lanes
  import opened IndexedAttention

  /** min(lens, num_candidates), never below zero. */
  function Effective(p: Problem): nat {
    if p.lens <= 0 then 0 else if p.lens < |p.indices| then p.lens else |p.indices|
  }

  /** The masked gather: zeros for an index outside the rows. */
  function LoadedRow(p: Problem, c: nat): seq<real>
    requires c < |p.indices|
  {
    if InRange(p, c) then p.kv[p.indices[c]] else Zeros(|p.q|)
  }

  function LoadedScore(p: Problem, c: nat): real
    requires c < |p.indices|
  {
    ScoreOf(p.q, p.scale, LoadedRow(p, c))
  }

  /** What the split passes attend to: every column below `lens`, in range or not. */
  function LoadedColumns(p: Problem): (cols: seq<Column>)
    ensures |cols| == |p.indices|
    ensures forall c :: 0 <= c < |cols| ==>
              cols[c] == if c < Effective(p) then Column(Fin(LoadedScore(p, c)), LoadedRow(p, c)) else MASKED
  {
    seq(|p.indices|, c requires 0 <= c < |p.indices| =>
          if c < Effective(p) then Column(Fin(LoadedScore(p, c)), LoadedRow(p, c)) else MASKED)
  }

  function Loaded(p: Problem): seq<Candidate> {
    Kept(LoadedColumns(p), 0, |p.indices|)
  }

  /** An index outside the rows is given the score zero and a row of zeros. */
  lemma StrayScoresZero(p: Problem, c: nat)
    requires c < |p.indices| && !(0 <= p.indices[c] < |p.kv|)
    ensures LoadedScore(p, c) == 0.0
    ensures forall d: nat :: At(LoadedRow(p, c), d) == 0.0
  {
    var zeros := Zeros(|p.q|);
    ZeroSum(Products(p.q, zeros));
    assert Dot(p.q, zeros) == 0.0;
  }

  /** What the passes attend to, index by index: below `lens` a row in range with `score`, its scaled dot
      product, and an index out of range as a zero row of score zero. */
  lemma AppendedIndexLoads(p: Problem, index: int, score: real)
    requires 0 <= index < |p.kv| ==> score == Dot(p.q, p.kv[index]) * p.scale
    ensures Loaded(p.(indices := p.indices + [index]))
         == Loaded(p) + if |p.indices| >= p.lens then []
                        else if 0 <= index < |p.kv| then [Candidate(score, p.kv[index])]
                        else [Candidate(0.0, Zeros(|p.q|))]
  {
    var n, more := |p.indices|, p.(indices := p.indices + [index]);
    forall c | 0 <= c < n ensures LoadedColumns(more)[c] == LoadedColumns(p)[c] {
      SameLoad(p, more, c);
    }
    LastLoads(p, index, score);
    hide LoadedColumns, KeptAt, Kept, Dot;
    assert LoadedColumns(more) == LoadedColumns(p) + [LoadedColumns(more)[n]];
    KeptSnoc(LoadedColumns(p), LoadedColumns(more)[n]);
  }

  lemma SameLoad(p: Problem, more: Problem, c: nat)
    requires c < |p.indices| && more == p.(indices := more.indices) && p.indices < more.indices
    ensures LoadedColumns(more)[c] == LoadedColumns(p)[c]
  {
    hide Dot;
    assert more.indices[c] == p.indices[c];
  }

  lemma LastLoads(p: Problem, index: int, score: real)
    requires 0 <= index < |p.kv| ==> score == Dot(p.q, p.kv[index]) * p.scale
    ensures KeptAt(LoadedColumns(p.(indices := p.indices + [index]))[|p.indices|])
         == if |p.indices| >= p.lens then []
            else if 0 <= index < |p.kv| then [Candidate(score, p.kv[index])]
            else [Candidate(0.0, Zeros(|p.q|))]
  {
    hide Dot, Zeros;
    var n, more := |p.indices|, p.(indices := p.indices + [index]);
    assert more.indices[n] == index;
    if 0 <= index < |p.kv| {
      ScorePlainly(p.q, p.scale, p.kv[index], score);
    } else {
      StrayScoresZero(more, n);
    }
  }

  // ----- the three passes -----

  predicate HoldsScores(scores: seq<real>, p: Problem, upTo: nat)
    requires |p.indices| <= |scores|
  {
    forall c :: 0 <= c < upTo && c < Effective(p) ==> scores[c] == LoadedScore(p, c)
  }

  /** _indexed_d512_split_score_kernel: blocks that start past the effective length return early,
      and lanes past it keep whatever the buffer held. */
  method SplitScores(p: Problem, blockC: nat, scores: array<real>)
    requires blockC > 0 && |p.indices| <= scores.Length
    modifies scores
    ensures HoldsScores(scores[..], p, |p.indices|)
    ensures forall c :: Effective(p) <= c < scores.Length ==> scores[c] == old(scores[c])
  {
    var start := 0;
    while start < |p.indices|
      invariant HoldsScores(scores[..], p, start)
      invariant forall c :: Effective(p) <= c < scores.Length ==> scores[c] == old(scores[c])
    {
      if start < Effective(p) {
        forall c | start <= c < start + blockC && c < Effective(p) {
          scores[c] := LoadedScore(p, c);
        }
      }
      start := start + blockC;
    }
  }

  /** The lanes of a block as the later passes load them: -inf past the effective length. */
  function BufferScores(p: Problem, scores: seq<real>, start: nat, k: nat): (r: seq<Score>)
    requires |p.indices| <= |scores|
    ensures |r| == k
    ensures forall j :: 0 <= j < k ==> r[j] == if start + j < Effective(p) then Fin(scores[start + j]) else NegInf
  {
    seq(k, j requires 0 <= j => if start + j < Effective(p) then Fin(scores[start + j]) else NegInf)
  }

  lemma BufferIsColumns(p: Problem, scores: seq<real>, start: nat, k: nat)
    requires |p.indices| <= |scores| && HoldsScores(scores, p, |p.indices|)
    ensures BufferScores(p, scores, start, k) == TileScores(LoadedColumns(p), start, k)
  {
    hide LoadedScore, LoadedRow;
  }

  function SafeMax(p: Problem, maxScore: Score): real {
    if p.lens > 0 && maxScore.Fin? then maxScore.v else 0.0
  }

  lemma LoadedPastEnd(p: Problem, k: nat)
    requires k >= Effective(p)
    ensures Kept(LoadedColumns(p), 0, k) == Loaded(p)
  {
    var least := if k < |p.indices| then k else |p.indices|;
    KeptMasked(LoadedColumns(p), 0, least, k);
    KeptMasked(LoadedColumns(p), 0, least, |p.indices|);
  }

  /** _indexed_d512_split_stats_kernel: one block wide enough for all candidates. */
  method SplitStats(e: real -> real, p: Problem, blockC: nat, scores: seq<real>) returns (maxScore: Score, denom: real)
    requires |p.indices| <= |scores| && |p.indices| <= blockC && HoldsScores(scores, p, |p.indices|)
    ensures maxScore == Top(Loaded(p))
    ensures denom == Weight(e, Loaded(p), SafeMax(p, maxScore))
  {
    hide *;
    var lanes := BufferScores(p, scores, 0, blockC);
    BufferIsColumns(p, scores, 0, blockC);
    EffectiveAtMost(p);
    LoadedPastEnd(p, blockC);
    TileTop(LoadedColumns(p), 0, blockC);
    maxScore := MaxOf(lanes);
    var safeMax := SafeMax(p, maxScore);
    TileWeight(e, LoadedColumns(p), 0, blockC, safeMax);
    denom := Sum(TileWeights(e, lanes, safeMax));
  }

  lemma EffectiveAtMost(p: Problem)
    ensures Effective(p) <= |p.indices|
  {}

  /** _indexed_d512_split_value_kernel: candidate blocks, each a product of weights and loaded rows;
      blocks past the effective length are skipped. */
  method SplitValues(e: real -> real, p: Problem, blockC: nat, scores: seq<real>, maxScore: Score, width: nat) returns (acc: seq<real>)
    requires blockC > 0 && |p.indices| <= |scores| && HoldsScores(scores, p, |p.indices|)
    ensures acc == Columns(e, Loaded(p), SafeMax(p, maxScore), width)
  {
    hide *;
    var safeMax := SafeMax(p, maxScore);
    acc := Zeros(width);
    NoColumns(e, LoadedColumns(p), safeMax, width);
    EffectiveAtMost(p);
    var start := 0;
    while start < |p.indices|
      invariant acc == Columns(e, Kept(LoadedColumns(p), 0, start), safeMax, width)
    {
      if start < Effective(p) {
        BufferIsColumns(p, scores, start, blockC);
        var weights := TileWeights(e, BufferScores(p, scores, start, blockC), safeMax);
        BlockAppends(e, LoadedColumns(p), start, blockC, safeMax, width);
        acc := AddBlock(LoadedColumns(p), acc, start, weights);
      } else {
        LoadedPastEnd(p, start);
        LoadedPastEnd(p, start + blockC);
      }
      start := start + blockC;
    }
    LoadedPastEnd(p, start);
  }

  lemma StatsMakeState(e: real -> real, p: Problem, width: nat)
    ensures var base := SafeMax(p, Top(Loaded(p)));
            State(Top(Loaded(p)), Weight(e, Loaded(p), base), Columns(e, Loaded(p), base, width)) == Direct(e, Loaded(p), width)
  {
    TopIsMaximum(Loaded(p));
    if p.lens <= 0 { LoadedPastEnd(p, 0); }
    if Loaded(p) == [] {
      assert Columns(e, Loaded(p), 0.0, width) == Zeros(width);
    }
  }

  /** accumulate_indexed_d512_split_sparse_mla_attention: the three passes in order, over a score
      buffer whose old contents do not matter. */
  method SplitAttend(e: real -> real, p: Problem, blockC: nat, scores: array<real>, slot: Slot)
    requires blockC > 0 && |p.indices| <= scores.Length && scores != slot.acc
    modifies scores, slot, slot.acc
    ensures slot.Value() == Direct(e, Loaded(p), slot.acc.Length)
  {
    SplitScores(p, blockC, scores);
    var maxScore, denom := SplitStats(e, p, |p.indices|, scores[..]);
    var acc := SplitValues(e, p, blockC, scores[..], maxScore, slot.acc.Length);
    StatsMakeState(e, p, slot.acc.Length);
    slot.Store(State(maxScore, denom, acc));
  }

  // ----- the chunked driver -----

  /** _indexed_d512_chunked_merge_acc_kernel: it reads both maxima and rewrites only the values. */
  method MergeAccKernel(e: real -> real, slot: Slot, chunk: Slot)
    requires slot.acc.Length == chunk.acc.Length && slot.acc != chunk.acc
    modifies slot.acc
    ensures slot.acc[..] == MergeAcc(e, old(slot.Value()), chunk.Value(), MaxScore(slot.maxScore, chunk.maxScore))
  {
    var merged := MergeAcc(e, slot.Value(), chunk.Value(), MaxScore(slot.maxScore, chunk.maxScore));
    forall d | 0 <= d < slot.acc.Length { slot.acc[d] := merged[d]; }
    assert slot.acc[..] == merged;
  }

  /** _indexed_d512_chunked_merge_state_kernel: the maximum and the denominator. */
  method MergeStateKernel(e: real -> real, slot: Slot, chunk: Slot)
    modifies slot
    ensures slot.maxScore == MaxScore(old(slot.maxScore), old(chunk.maxScore))
    ensures slot.denom == MergeDenom(e, old(slot.Value()), old(chunk.Value()), slot.maxScore)
  {
    var next := MaxScore(slot.maxScore, chunk.maxScore);
    slot.maxScore, slot.denom := next, MergeDenom(e, slot.Value(), chunk.Value(), next);
  }

  /** The two merge launches of one chunk.  The values must go first: the state merge overwrites the
      running maximum they are rescaled from. */
  method MergeChunk(e: real -> real, slot: Slot, chunk: Slot)
    requires slot != chunk && slot.acc != chunk.acc && slot.acc.Length == chunk.acc.Length
    modifies slot, slot.acc
    ensures slot.Value() == Merge(e, old(slot.Value()), chunk.Value())
  {
    MergeAccKernel(e, slot, chunk);
    MergeStateKernel(e, slot, chunk);
  }

  /** accumulate_indexed_d512_chunked_sparse_mla_attention. */
  method ChunkedAttend(e: real -> real, p: Problem, blockC: nat, scores: array<real>, slot: Slot, chunkSlot: Slot)
    requires IsExp(e) && blockC > 0 && scores.Length > 0
    requires slot != chunkSlot && slot.acc != chunkSlot.acc && scores != slot.acc && scores != chunkSlot.acc
    requires slot.acc.Length == chunkSlot.acc.Length
    modifies scores, slot, slot.acc, chunkSlot, chunkSlot.acc
    ensures slot.Value() == Direct(e, Loaded(p), slot.acc.Length)
  {
    hide LoadedColumns, Merge, Direct;
    ghost var cols := LoadedColumns(p);
    var width, chunkSize := slot.acc.Length, scores.Length;
    slot.Store(EmptyState(width));
    NothingLoaded(e, cols, width);
    var start := 0;
    ghost var done: nat := 0;
    while start < |p.indices|
      invariant done == if start < |p.indices| then start else |p.indices|
      invariant slot.Value() == Direct(e, Kept(cols, 0, done), width)
    {
      var end := if start + chunkSize < |p.indices| then start + chunkSize else |p.indices|;
      var chunk := ClampedChunk(p, start, end);
      SplitAttend(e, chunk, blockC, scores, chunkSlot);
      MergeChunk(e, slot, chunkSlot);
      ChunkLoads(p, start, end);
      MergeIsConcatenation(e, Kept(cols, 0, start), Loaded(chunk), width);
      done := end;
      start := start + chunkSize;
    }
  }

  lemma NothingLoaded(e: real -> real, cols: seq<Column>, width: nat)
    ensures EmptyState(width) == Direct(e, Kept(cols, 0, 0), width)
  {}

  /** A chunk as the driver passes it on: its own indices, its length clamped to the chunk. */
  function ClampedChunk(p: Problem, start: nat, end: nat): Problem
    requires start <= end <= |p.indices|
  {
    var left := p.lens - start;
    p.(indices := p.indices[start..end],
       lens := if left < 0 then 0 else if left > end - start then end - start else left)
  }

  /** The clamped length never exceeds the chunk, and counts the chunk's columns below `lens`. */
  lemma ClampedLength(p: Problem, start: nat, end: nat, t: nat)
    requires start <= end <= |p.indices|
    ensures 0 <= ClampedChunk(p, start, end).lens <= end - start
    ensures t < ClampedChunk(p, start, end).lens <==> t < end - start && start + t < p.lens
  {}

  lemma ChunkColumnLoads(p: Problem, start: nat, end: nat, t: nat)
    requires start <= end <= |p.indices| && t < end - start
    ensures LoadedRow(ClampedChunk(p, start, end), t) == LoadedRow(p, start + t)
    ensures LoadedScore(ClampedChunk(p, start, end), t) == LoadedScore(p, start + t)
    ensures t < Effective(ClampedChunk(p, start, end)) <==> start + t < Effective(p)
  {
    hide ScoreOf, Zeros;
    assert ClampedChunk(p, start, end).indices[t] == p.indices[start + t];
  }

  lemma ChunkLoadsColumns(p: Problem, start: nat, end: nat)
    requires start <= end <= |p.indices|
    ensures LoadedColumns(ClampedChunk(p, start, end)) == LoadedColumns(p)[start..end]
  {
    var chunk := ClampedChunk(p, start, end);
    assert |chunk.indices| == end - start;
    hide *;
    forall t: nat | t < end - start ensures LoadedColumns(chunk)[t] == LoadedColumns(p)[start..end][t] {
      ChunkColumnLoads(p, start, end, t);
    }
  }

  /** A chunk with its clamped length loads the matching stretch of the whole list. */
  lemma ChunkLoads(p: Problem, start: nat, end: nat)
    requires start <= end <= |p.indices|
    ensures Kept(LoadedColumns(p), 0, start) + Loaded(ClampedChunk(p, start, end)) == Kept(LoadedColumns(p), 0, end)
  {
    hide *;
    var cols, k := LoadedColumns(p), end - start;
    ChunkWidth(p, start, end);
    ChunkLoadsColumns(p, start, end);
    KeptSlice(cols, start, end, k);
    assert start + k == end;
    KeptJoin(cols, 0, start, end);
  }

  lemma ChunkWidth(p: Problem, start: nat, end: nat)
    requires start <= end <= |p.indices|
    ensures Loaded(ClampedChunk(p, start, end)) == Kept(LoadedColumns(ClampedChunk(p, start, end)), 0, end - start)
  {
    hide Kept, LoadedColumns;
  }

  /** A chunk that starts at or past `lens` loads nothing, and merging it changes nothing. */
  lemma EmptyChunkChangesNothing(e: real -> real, chunk: Problem, cs: seq<Candidate>, width: nat)
    requires IsExp(e) && chunk.lens <= 0
    ensures Merge(e, Direct(e, cs, width), Direct(e, Loaded(chunk), width)) == Direct(e, cs, width)
  {
    LoadedPastEnd(chunk, 0);
    MergeIsConcatenation(e, cs, Loaded(chunk), width);
    assert cs + Loaded(chunk) == cs;
  }

  // ----- agreement with the scalar kernels -----

  predicate AllInRange(p: Problem) {
    forall c: nat :: c < Effective(p) ==> InRange(p, c)
  }

  /** Column c adds its weight to what the split passes sum, and to what the scalar kernels sum only
      when it is in range. */
  lemma ColumnWeights(e: real -> real, p: Problem, c: nat, base: real)
    requires IsExp(e) && c < Effective(p)
    ensures var loaded := Weight(e, KeptAt(LoadedColumns(p)[c]), base);
            && loaded > 0.0
            && Weight(e, KeptAt(ColumnsOf(p)[c]), base) == if InRange(p, c) then loaded else 0.0
  {
    WeightNonNegative(e, KeptAt(LoadedColumns(p)[c]), base);
    hide Weight, ScoreOf;
    if !InRange(p, c) { NoWeight(e, base); }
  }

  lemma NoWeight(e: real -> real, base: real)
    ensures Weight(e, [], base) == 0.0
  {}

  /** An out-of-range column only ever adds weight. */
  lemma {:induction false} LoadedWeighsMore(e: real -> real, p: Problem, k: nat, base: real, stray: nat)
    requires IsExp(e) && k <= Effective(p) && stray < Effective(p) && !InRange(p, stray)
    ensures Weight(e, Kept(LoadedColumns(p), 0, k), base) >= Weight(e, Cells(p, k), base)
    ensures stray < k ==> Weight(e, Kept(LoadedColumns(p), 0, k), base) > Weight(e, Cells(p, k), base)
  {
    hide *;
    if k == 0 { NothingKept(e, LoadedColumns(p), base); NothingKept(e, ColumnsOf(p), base); CellsAreKept(p, 0); return; }
    EffectiveAtMost(p);
    LoadedWeighsMore(e, p, k - 1, base, stray);
    ColumnWeights(e, p, k - 1, base);
    NextWeight(e, LoadedColumns(p), k, base);
    NextWeight(e, ColumnsOf(p), k, base);
    CellsAreKept(p, k);
    CellsAreKept(p, k - 1);
  }

  lemma NothingKept(e: real -> real, cols: seq<Column>, base: real)
    ensures Weight(e, Kept(cols, 0, 0), base) == 0.0
  {}

  lemma CellsAreKept(p: Problem, k: nat)
    ensures Cells(p, k) == Kept(ColumnsOf(p), 0, k)
  {}

  lemma NextWeight(e: real -> real, cols: seq<Column>, k: nat, base: real)
    requires 0 < k <= |cols|
    ensures Weight(e, Kept(cols, 0, k), base) == Weight(e, Kept(cols, 0, k - 1), base) + Weight(e, KeptAt(cols[k - 1]), base)
  {
    KeptNext(cols, 0, k);
    assert ColumnAt(cols, k - 1) == cols[k - 1];
    hide *;
    WeightAppend(e, Kept(cols, 0, k - 1), KeptAt(cols[k - 1]), base);
  }

  /** The split and chunked path ends in the scalar kernels' state exactly when every index below
      `lens` is in range. */
  lemma SplitAgreesIff(e: real -> real, p: Problem, width: nat)
    requires IsExp(e)
    ensures Direct(e, Loaded(p), width) == Direct(e, AllCells(p), width) <==> AllInRange(p)
  {
    if AllInRange(p) {
      hide ScoreOf;
      assert LoadedColumns(p) == ColumnsOf(p);
    } else {
      var stray: nat :| stray < Effective(p) && !InRange(p, stray);
      if Direct(e, Loaded(p), width) == Direct(e, AllCells(p), width) {
        StrayDiffers(e, p, width, stray);
        assert false;
      }
    }
  }

  lemma StrayDiffers(e: real -> real, p: Problem, width: nat, stray: nat)
    requires IsExp(e) && stray < Effective(p) && !InRange(p, stray)
    ensures Direct(e, Loaded(p), width) != Direct(e, AllCells(p), width)
  {
    var eff, base := Effective(p), if Top(Loaded(p)).Fin? then Top(Loaded(p)).v else 0.0;
    LoadedPastEnd(p, eff);
    CellsPastLens(p, eff, |p.indices|);
    LoadedWeighsMore(e, p, eff, base, stray);
    TopIsMaximum(Loaded(p));
    TopIsMaximum(AllCells(p));
    NoWeight(e, base);
    hide Weight, Kept, Cells, Loaded, Columns, Top, IsExp;
  }
}
