/** The two indexer entry points that compute logits chunk by chunk and keep only the top-k of each row:
    over plain keys, and over the paged cache. */
module IndexerTopK {
  import opened Softmax
  import opened TopK
  import opened MqaLogits
  import opened PagedLogits

  /** The logits of one query row over all keys, -inf outside [ks, ke). */
  function CleanRow(q: Query, keys: seq<seq<real>>, ks: int, ke: int): (row: seq<Score>)
    ensures |row| == |keys|
    ensures forall c :: 0 <= c < |row| ==> row[c] == if c < ks || c >= ke then NegInf else Fin(Logit(q, keys[c]))
  {
    seq(|keys|, c requires 0 <= c < |keys| => Cleaned(true, ks, ke, c, Logit(q, keys[c])))
  }

  /** The logits of keys [start, end): head blocks added up, then cleaned. */
  method ChunkLogits(q: Query, keys: seq<seq<real>>, start: nat, end: nat, headChunk: nat, ks: int, ke: int)
    returns (cells: seq<Score>)
    requires start <= end <= |keys| && headChunk > 0
    ensures cells == CleanRow(q, keys, ks, ke)[start..end]
  {
    hide HeadTerm, HeadSum, Logit;
    var chunk := new real[end - start](_ => 0.0);
    NoHeadsAnywhere(q, keys);
    var head := 0;
    while head < |q.heads|
      invariant head <= |q.heads|
      invariant forall c :: 0 <= c < chunk.Length ==> chunk[c] == HeadSum(q, keys[start + c], 0, head)
    {
      var headEnd := Least(head + headChunk, |q.heads|);
      forall c | 0 <= c < chunk.Length
        ensures chunk[c] + HeadSum(q, keys[start + c], head, headEnd) == HeadSum(q, keys[start + c], 0, headEnd)
      {
        HeadSumJoin(q, keys[start + c], 0, head, headEnd);
      }
      forall c | 0 <= c < chunk.Length {
        chunk[c] := chunk[c] + HeadSum(q, keys[start + c], head, headEnd);
      }
      head := headEnd;
    }
    var done := chunk[..];
    cells := seq(|done|, c requires 0 <= c < |done| => Cleaned(true, ks, ke, start + c, done[c]));
    forall c | 0 <= c < |done| ensures cells[c] == CleanRow(q, keys, ks, ke)[start + c] {
      LogitIsHeadSum(q, keys[start + c]);
    }
  }

  lemma NoHeadsAnywhere(q: Query, keys: seq<seq<real>>)
    ensures forall c :: 0 <= c < |keys| ==> HeadSum(q, keys[c], 0, 0) == 0.0
  {}

  lemma LogitIsHeadSum(q: Query, key: seq<real>)
    ensures Logit(q, key) == HeadSum(q, key, 0, |q.heads|)
  {}

  /** _fp8_mqa_logits_topk_torch for one row. */
  method MqaTopK(q: Query, keys: seq<seq<real>>, seqLen: nat, ks: int, ke: int,
                 pick: (nat, seq<Score>, nat) -> Selection, out: array<int>)
    requires IsTopKOp(pick)
    modifies out
    ensures IsRowTopK(CleanRow(q, keys, ks, ke), out.Length, out[..])
  {
    hide IsRowTopK, BestOf, IsTopKOp, HeadChunkSize, KeyChunkSize, Cleaned, Logit;
    forall j | 0 <= j < out.Length { out[j] := -1; }
    ghost var logits := CleanRow(q, keys, ks, ke);
    StartsRight(logits, out[..]);
    var bestValues := seq(out.Length, _ => NegInf);
    var headChunk := HeadChunkSize(seqLen, |keys|, |q.heads|);
    var keyChunk := KeyChunkSize(seqLen, |keys|, headChunk);
    ChunkSizesPositive(seqLen, |keys|, |q.heads|, headChunk);
    var start, call := 0, 0;
    while start < |keys|
      invariant 0 <= start <= |keys|
      invariant IsRowTopK(logits[..start], out.Length, out[..])
      invariant bestValues == BestOf(logits[..start], out[..])
    {
      var end := Least(start + keyChunk, |keys|);
      var chunk := ChunkLogits(q, keys, start, end, headChunk, ks, ke);
      bestValues := TakeChunk(logits, start, chunk, bestValues, pick, call, out);
      start, call := end, call + 2;
    }
    assert logits[..start] == logits;
  }

  /** The logits of one paged row up to the maximal length. */
  function PagedRow(p: Paged, maxModelLen: nat): (row: seq<Score>)
    requires p.layout.blockSize > 0
    ensures |row| == maxModelLen && HoldsWindow(p, 0, row, maxModelLen)
  {
    seq(maxModelLen, t requires 0 <= t => PagedLogit(p, t))
  }

  /** fp8_paged_mqa_logits_triton for one window, by whichever of its kernels. */
  method Window(p: Paged, maxModelLen: nat, start: nat, count: nat, rowwise: bool, blockN: nat) returns (cells: seq<Score>)
    requires blockN > 0 && start + count <= maxModelLen
    requires TableCovers(p, p.contextLen) && (!rowwise ==> TableCovers(p, maxModelLen))
    ensures cells == PagedRow(p, maxModelLen)[start..start + count]
  {
    hide PagedLogit;
    var logits := new Score[count](_ => NegInf);
    if rowwise {
      RowwiseWindow(p, start, blockN, logits);
    } else {
      TiledWindow(p, start, logits);
    }
    cells := logits[..];
    WindowIsSlice(p, PagedRow(p, maxModelLen), start, cells);
  }

  /** fp8_fp4_paged_mqa_topk_indices for one row: the kernels' windows straight into the streaming step. */
  method PagedTopK(p: Paged, maxModelLen: nat, chunkSize: nat, rowwise: bool, blockN: nat,
                   pick: (nat, seq<Score>, nat) -> Selection, out: array<int>)
    requires chunkSize > 0 && blockN > 0 && IsTopKOp(pick)
    requires TableCovers(p, p.contextLen) && (!rowwise ==> TableCovers(p, maxModelLen))
    modifies out
    ensures IsRowTopK(PagedRow(p, maxModelLen), out.Length, out[..])
  {
    hide IsRowTopK, BestOf, IsTopKOp, HoldsWindow;
    forall j | 0 <= j < out.Length { out[j] := -1; }
    ghost var logits := PagedRow(p, maxModelLen);
    StartsRight(logits, out[..]);
    var bestValues := seq(out.Length, _ => NegInf);
    var tokenStart, call := 0, 0;
    while tokenStart < maxModelLen
      invariant 0 <= tokenStart <= maxModelLen
      invariant IsRowTopK(logits[..tokenStart], out.Length, out[..])
      invariant bestValues == BestOf(logits[..tokenStart], out[..])
    {
      var tokenCount := Least(chunkSize, maxModelLen - tokenStart);
      var chunk := Window(p, maxModelLen, tokenStart, tokenCount, rowwise, blockN);
      bestValues := TakeChunk(logits, tokenStart, chunk, bestValues, pick, call, out);
      tokenStart, call := tokenStart + tokenCount, call + 2;
    }
    assert logits[..tokenStart] == logits;
  }
}
