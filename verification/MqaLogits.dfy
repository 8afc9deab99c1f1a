/** Indexer logits: a weighted sum over heads of rectified query-key products.  The blocked torch form,
    the Triton form that scales after the dot product, and the three paged forms are all measured
    against `Logit`. */
module MqaLogits {
  import opened Softmax

  const MAX_SCORE_BYTES: nat := 64 * 1024 * 1024

  function Relu(x: real): real {
    if x < 0.0 then 0.0 else x
  }

  /** The query heads of one row with their weights. */
  datatype Query = Query(heads: seq<seq<real>>, weights: seq<real>)

  function HeadTerm(q: Query, h: nat, key: seq<real>): real
    requires h < |q.heads|
  {
    Times(Relu(Dot(q.heads[h], key)), At(q.weights, h))
  }

  /** The contribution of heads [from, end). */
  function HeadSum(q: Query, key: seq<real>, from: nat, end: nat): real
    requires end <= |q.heads|
    decreases end
  {
    if end <= from then 0.0 else HeadSum(q, key, from, end - 1) + HeadTerm(q, end - 1, key)
  }

  function Logit(q: Query, key: seq<real>): real {
    HeadSum(q, key, 0, |q.heads|)
  }

  lemma {:induction false} HeadSumExtends(q: Query, head: seq<real>, weight: real, key: seq<real>, n: nat)
    requires n <= |q.heads| && |q.weights| == |q.heads|
    ensures HeadSum(Query(q.heads + [head], q.weights + [weight]), key, 0, n) == HeadSum(q, key, 0, n)
    decreases n
  {
    if n > 0 {
      HeadSumExtends(q, head, weight, key, n - 1);
      var more := Query(q.heads + [head], q.weights + [weight]);
      assert more.heads[n - 1] == q.heads[n - 1] && At(more.weights, n - 1) == At(q.weights, n - 1);
      hide Dot;
    }
  }

  lemma LastHead(q: Query, head: seq<real>, weight: real, key: seq<real>)
    requires |q.weights| == |q.heads|
    ensures HeadTerm(Query(q.heads + [head], q.weights + [weight]), |q.heads|, key)
         == if Dot(head, key) <= 0.0 then 0.0 else Dot(head, key) * weight
  {
    hide Dot;
    var more := Query(q.heads + [head], q.weights + [weight]);
    assert more.heads[|q.heads|] == head && At(more.weights, |q.heads|) == weight;
  }

  /** What a logit is, head by head: nothing without heads, and each further head adds its weight times
      its dot product with the key when that is positive, and nothing otherwise. */
  lemma LogitIsRectifiedSum(q: Query, head: seq<real>, weight: real, key: seq<real>)
    requires |q.weights| == |q.heads|
    ensures Logit(Query([], []), key) == 0.0
    ensures Logit(Query(q.heads + [head], q.weights + [weight]), key)
         == Logit(q, key) + if Dot(head, key) <= 0.0 then 0.0 else Dot(head, key) * weight
  {
    hide HeadTerm;
    var more := Query(q.heads + [head], q.weights + [weight]);
    assert |more.heads| == |q.heads| + 1;
    HeadSumExtends(q, head, weight, key, |q.heads|);
    LastHead(q, head, weight, key);
  }

  lemma {:induction false} HeadSumJoin(q: Query, key: seq<real>, a: nat, b: nat, c: nat)
    requires a <= b <= c <= |q.heads|
    ensures HeadSum(q, key, a, b) + HeadSum(q, key, b, c) == HeadSum(q, key, a, c)
    decreases c
  {
    if b < c { HeadSumJoin(q, key, a, b, c - 1); }
  }

  // ----- chunk sizes -----

  function AtLeastOne(n: int): nat {
    if n < 1 then 1 else n
  }

  function Least(a: nat, b: nat): nat {
    if a < b then a else b
  }

  function Quotient(a: nat, b: nat): nat
    requires b > 0
  {
    a / b
  }

  /** How many units of `cells` fp32 scores fit the byte budget. */
  function Fits(cells: nat): nat {
    Quotient(MAX_SCORE_BYTES, AtLeastOne(cells) * 4)
  }

  /** _fp8_mqa_logits_head_chunk_size. */
  function HeadChunkSize(seqLen: nat, seqLenKv: nat, numHeads: nat): nat {
    AtLeastOne(Least(8, Least(numHeads, Fits(seqLen * seqLenKv))))
  }

  /** _fp8_mqa_logits_k_chunk_size. */
  function KeyChunkSize(seqLen: nat, seqLenKv: nat, headChunk: nat): nat {
    AtLeastOne(Least(seqLenKv, Fits(seqLen * headChunk)))
  }

  lemma QuotientAtLeast(a: nat, b: nat, n: nat)
    requires b > 0 && n * b <= a
    ensures n <= a / b
  {
    var q := a / b;
    assert a == b * q + a % b;
    assert (q + 1) * b == b * q + b;
    SmallerFactor(n, q + 1, b);
  }

  lemma SmallerFactor(n: nat, m: nat, b: nat)
    requires n * b < m * b
    ensures n < m
  {
    if n >= m { MulMonotone(m, n, b); }
  }

  lemma FitsMeans(h: nat, cells: nat)
    requires h * cells * 4 <= MAX_SCORE_BYTES && cells > 0
    ensures h <= Fits(cells)
  {
    var unit := cells * 4;
    assert h * unit == h * cells * 4;
    QuotientAtLeast(MAX_SCORE_BYTES, unit, h);
  }

  /** The chunk sizes are as large as they may be: at most eight heads, at most all of them, at least
      one, and no larger number of heads or keys would have fitted. */
  lemma ChunkSizesAreLargest(seqLen: nat, seqLenKv: nat, numHeads: nat, h: nat, keys: nat)
    ensures HeadChunkSize(seqLen, seqLenKv, numHeads) <= 8
    ensures HeadChunkSize(seqLen, seqLenKv, numHeads) <= if numHeads == 0 then 1 else numHeads
    ensures KeyChunkSize(seqLen, seqLenKv, h) <= if seqLenKv == 0 then 1 else seqLenKv
    ensures h <= 8 && h <= numHeads && seqLen * seqLenKv > 0 && h * (seqLen * seqLenKv) * 4 <= 64 * 1024 * 1024 ==>
              h <= HeadChunkSize(seqLen, seqLenKv, numHeads)
    ensures keys <= seqLenKv && seqLen * h > 0 && keys * (seqLen * h) * 4 <= 64 * 1024 * 1024 ==>
              keys <= KeyChunkSize(seqLen, seqLenKv, h)
  {
    assert MAX_SCORE_BYTES == 64 * 1024 * 1024;
    hide Fits;
    if seqLen * seqLenKv > 0 && h * (seqLen * seqLenKv) * 4 <= MAX_SCORE_BYTES {
      FitsMeans(h, seqLen * seqLenKv);
    }
    if seqLen * h > 0 && keys * (seqLen * h) * 4 <= MAX_SCORE_BYTES {
      FitsMeans(keys, seqLen * h);
    }
  }

  lemma QuotientTimes(a: nat, b: nat, n: nat)
    requires b > 0 && n <= a / b
    ensures n * b <= a
  {
    assert a == b * (a / b) + a % b;
    assert n * b <= (a / b) * b;
  }

  lemma FitsWithin(n: nat, cells: nat)
    requires cells > 0 && n <= Fits(cells)
    ensures n * cells * 4 <= MAX_SCORE_BYTES
  {
    var unit := cells * 4;
    QuotientTimes(MAX_SCORE_BYTES, unit, n);
    assert n * unit == n * cells * 4;
  }

  /** The transient [heads, M, keys] score tensor stays within 64 MiB, or within one score per query
      row when a single key does not fit. */
  lemma ScoreBytesBounded(seqLen: nat, seqLenKv: nat, numHeads: nat, heads: nat, keys: nat)
    requires seqLenKv > 0 && 0 < heads <= HeadChunkSize(seqLen, seqLenKv, numHeads)
    requires 0 < keys <= KeyChunkSize(seqLen, seqLenKv, heads)
    ensures keys * (seqLen * heads) * 4 <= MAX_SCORE_BYTES || keys * (seqLen * heads) * 4 <= 4 * seqLen
  {
    hide Fits;
    var perKey := seqLen * heads;
    if perKey == 0 {
      assert keys * perKey == 0;
    } else if keys <= Fits(perKey) {
      FitsWithin(keys, perKey);
    } else {
      OneKeyBounded(seqLen, seqLenKv, numHeads, heads);
      assert keys == 1;
      assert keys * perKey == perKey;
    }
  }

  lemma OneKeyBounded(seqLen: nat, seqLenKv: nat, numHeads: nat, heads: nat)
    requires seqLenKv > 0 && 0 < heads <= HeadChunkSize(seqLen, seqLenKv, numHeads)
    ensures (seqLen * heads) * 4 <= MAX_SCORE_BYTES || (seqLen * heads) * 4 <= 4 * seqLen
  {
    if heads > 1 && seqLen > 0 {
      var cells := seqLen * seqLenKv;
      CellsAtLeast(seqLen, seqLenKv, heads);
      hide Fits;
      FitsWithin(heads, cells);
    }
  }

  lemma CellsAtLeast(seqLen: nat, seqLenKv: nat, heads: nat)
    requires seqLenKv > 0
    ensures heads * (seqLen * seqLenKv) >= seqLen * heads
    ensures seqLen > 0 ==> seqLen * seqLenKv > 0
  {
    assert seqLen * seqLenKv >= seqLen;
    assert heads * (seqLen * seqLenKv) >= heads * seqLen;
  }

  // ----- blocked torch form -----

  /** A row after the optional cleaning: -inf outside [ks, ke). */
  function Cleaned(clean: bool, ks: int, ke: int, c: int, logit: real): Score {
    if clean && !(ks <= c < ke) then NegInf else Fin(logit)
  }

  /** _fp8_mqa_logits_torch for one query row: head chunks, and key chunks inside them, each adding
      its block's scores to the row in place. */
  method BlockedLogits(q: Query, keys: seq<seq<real>>, seqLen: nat, clean: bool, ks: int, ke: int, logits: array<real>)
    returns (row: seq<Score>)
    requires logits.Length == |keys|
    modifies logits
    ensures forall c :: 0 <= c < |keys| ==> logits[c] == Logit(q, keys[c])
    ensures |row| == |keys|
    ensures forall c :: 0 <= c < |keys| ==> row[c] == if clean && (c < ks || c >= ke) then NegInf else Fin(Logit(q, keys[c]))
  {
    hide HeadTerm, HeadChunkSize, KeyChunkSize;
    forall c | 0 <= c < |keys| { logits[c] := 0.0; }
    var headChunk := HeadChunkSize(seqLen, |keys|, |q.heads|);
    var head := 0;
    while head < |q.heads|
      invariant head <= |q.heads|
      invariant forall c :: 0 <= c < |keys| ==> logits[c] == HeadSum(q, keys[c], 0, head)
    {
      ChunkSizesPositive(seqLen, |keys|, |q.heads|, headChunk);
      var headEnd := Least(head + headChunk, |q.heads|);
      var keyChunk := KeyChunkSize(seqLen, |keys|, headEnd - head);
      ChunkSizesPositive(seqLen, |keys|, |q.heads|, headEnd - head);
      var k := 0;
      while k < |keys|
        invariant k <= |keys|
        invariant forall c :: 0 <= c < k ==> logits[c] == HeadSum(q, keys[c], 0, headEnd)
        invariant forall c :: k <= c < |keys| ==> logits[c] == HeadSum(q, keys[c], 0, head)
      {
        var kEnd := Least(k + keyChunk, |keys|);
        forall c | k <= c < kEnd ensures HeadSum(q, keys[c], 0, head) + HeadSum(q, keys[c], head, headEnd) == HeadSum(q, keys[c], 0, headEnd) {
          HeadSumJoin(q, keys[c], 0, head, headEnd);
        }
        forall c | k <= c < kEnd {
          logits[c] := logits[c] + HeadSum(q, keys[c], head, headEnd);
        }
        k := kEnd;
      }
      head := headEnd;
    }
    var done := logits[..];
    row := seq(|keys|, c requires 0 <= c < |done| => Cleaned(clean, ks, ke, c, done[c]));
  }

  lemma ChunkSizesPositive(seqLen: nat, seqLenKv: nat, numHeads: nat, heads: nat)
    ensures HeadChunkSize(seqLen, seqLenKv, numHeads) > 0
    ensures KeyChunkSize(seqLen, seqLenKv, heads) > 0
  {}

  // ----- Triton form -----

  function Scaled(raw: seq<real>, scale: real): (r: seq<real>)
    ensures |r| == |raw| && forall d :: 0 <= d < |raw| ==> r[d] == Times(raw[d], scale)
  {
    seq(|raw|, d requires 0 <= d < |raw| => Times(raw[d], scale))
  }

  lemma {:induction false} SumScales(v: seq<real>, scale: real)
    ensures Sum(Scaled(v, scale)) == Times(Sum(v), scale)
  {
    if v != [] {
      var front := v[..|v| - 1];
      SumScales(front, scale);
      assert Scaled(v, scale)[..|v| - 1] == Scaled(front, scale);
      Distribute(Sum(front), v[|v| - 1], scale);
    }
  }

  lemma ScaleLast(x: real, y: real, scale: real)
    ensures x * Times(y, scale) == Times(x * y, scale)
  {}

  /** Scaling the key first or the dot product afterwards is the same. */
  lemma DotScales(a: seq<real>, raw: seq<real>, scale: real)
    ensures Dot(a, Scaled(raw, scale)) == Times(Dot(a, raw), scale)
  {
    SumScales(Products(a, raw), scale);
    forall d | 0 <= d < |a| ensures Products(a, Scaled(raw, scale))[d] == Scaled(Products(a, raw), scale)[d] {
      ScaleLast(a[d], At(raw, d), scale);
      assert At(Scaled(raw, scale), d) == Times(At(raw, d), scale);
    }
    assert Products(a, Scaled(raw, scale)) == Scaled(Products(a, raw), scale);
  }

  /** The first `k` products of a dot product, which the kernel adds up in blocks of columns. */
  function DotUpTo(a: seq<real>, b: seq<real>, k: nat): real {
    Sum(Products(a, b)[..Least(k, |a|)])
  }

  function DotBlock(a: seq<real>, b: seq<real>, from: nat, size: nat): real {
    if from >= |a| then 0.0 else Sum(Products(a, b)[from..Least(from + size, |a|)])
  }

  lemma DotBlockNext(a: seq<real>, b: seq<real>, from: nat, size: nat)
    ensures DotUpTo(a, b, from) + DotBlock(a, b, from, size) == DotUpTo(a, b, from + size)
  {
    if from < |a| {
      var p := Products(a, b);
      var end := Least(from + size, |a|);
      SumAppend(p[..from], p[from..end]);
      assert p[..from] + p[from..end] == p[..end];
    }
  }

  /** One cell of the Triton kernels: heads in blocks of `blockH`, columns in blocks of `blockD`, the
      key's scale applied to the finished dot product. */
  method TritonCell(q: Query, raw: seq<real>, scale: real, blockH: nat, blockD: nat) returns (logit: real)
    requires blockH > 0 && blockD > 0
    ensures logit == Logit(q, Scaled(raw, scale))
  {
    hide HeadSum, Sum, Products, Times, Relu, DotUpTo, DotBlock;
    ghost var key := Scaled(raw, scale);
    logit := 0.0;
    var h0 := 0;
    NoHeads(q, key, 0);
    while h0 < |q.heads|
      invariant h0 <= |q.heads| && logit == HeadSum(q, key, 0, h0)
    {
      var end := Least(h0 + blockH, |q.heads|);
      var block := 0.0;
      var h := h0;
      NoHeads(q, key, h0);
      while h < end
        invariant h0 <= h <= end && block == HeadSum(q, key, h0, h)
      {
        var score := TritonScore(q.heads[h], raw, blockD);
        DotScales(q.heads[h], raw, scale);
        HeadSumNext(q, key, h0, h);
        block := block + Times(Relu(Times(score, scale)), At(q.weights, h));
        h := h + 1;
      }
      HeadSumJoin(q, key, 0, h0, end);
      logit := logit + block;
      h0 := end;
    }
  }

  lemma NoHeads(q: Query, key: seq<real>, h: nat)
    requires h <= |q.heads|
    ensures HeadSum(q, key, h, h) == 0.0
  {}

  lemma HeadSumNext(q: Query, key: seq<real>, from: nat, h: nat)
    requires from <= h < |q.heads|
    ensures HeadSum(q, key, from, h + 1) == HeadSum(q, key, from, h) + HeadTerm(q, h, key)
  {}

  method TritonScore(head: seq<real>, raw: seq<real>, blockD: nat) returns (score: real)
    requires blockD > 0
    ensures score == Dot(head, raw)
  {
    score := 0.0;
    var d0 := 0;
    while d0 < |head|
      invariant score == DotUpTo(head, raw, d0)
    {
      DotBlockNext(head, raw, d0, blockD);
      score := score + DotBlock(head, raw, d0, blockD);
      d0 := d0 + blockD;
    }
    assert Products(head, raw)[..|head|] == Products(head, raw);
  }

  /** One row of the Triton kernel: every cell of the row by itself, the mask applied at the end. */
  method TritonRow(q: Query, raws: seq<seq<real>>, scales: seq<real>, clean: bool, ks: int, ke: int, blockH: nat, blockD: nat)
    returns (row: seq<Score>)
    requires |raws| == |scales| && blockH > 0 && blockD > 0
    ensures |row| == |raws|
    ensures forall c :: 0 <= c < |raws| ==>
              row[c] == if clean && (c < ks || c >= ke) then NegInf else Fin(Logit(q, Scaled(raws[c], scales[c])))
  {
    hide Logit, Scaled;
    row := [];
    for c := 0 to |raws|
      invariant |row| == c
      invariant forall i :: 0 <= i < c ==>
                  row[i] == if clean && (i < ks || i >= ke) then NegInf else Fin(Logit(q, Scaled(raws[i], scales[i])))
    {
      var logit := TritonCell(q, raws[c], scales[c], blockH, blockD);
      row := row + [Cleaned(clean, ks, ke, c, logit)];
    }
  }

  /** A scaled key, column by column. */
  lemma ScaledPlainly(raw: seq<real>, scale: real, d: nat)
    requires d < |raw|
    ensures |Scaled(raw, scale)| == |raw| && Scaled(raw, scale)[d] == raw[d] * scale
  {}

  // ----- split-K -----

  /** cdiv(K, splits): the width of one split. */
  function SplitWidth(k: nat, splits: nat): nat
    requires splits > 0
  {
    (k + splits - 1) / splits
  }

  function SplitBegin(k: nat, splits: nat, s: nat): nat
    requires splits > 0
  {
    Least(s * SplitWidth(k, splits), k)
  }

  lemma SplitWidthCovers(k: nat, splits: nat)
    requires splits > 0
    ensures splits * SplitWidth(k, splits) >= k
  {
    var w := SplitWidth(k, splits);
    assert k + splits - 1 == splits * w + (k + splits - 1) % splits;
  }

  /** Every column belongs to exactly one split. */
  lemma SplitsPartition(k: nat, splits: nat, c: nat, s: nat)
    requires splits > 0 && c < k
    ensures SplitWidth(k, splits) > 0
    ensures c / SplitWidth(k, splits) < splits
    ensures SplitBegin(k, splits, s) <= c < SplitBegin(k, splits, s + 1) <==> s == c / SplitWidth(k, splits)
  {
    SplitWidthCovers(k, splits);
    var w := SplitWidth(k, splits);
    assert w == 0 ==> splits * w == 0;
    var owner := c / w;
    assert c == w * owner + c % w;
    assert owner < splits by { if owner >= splits { MulMonotone(splits, owner, w); } }
    assert (s + 1) * w == s * w + w;
    if s < owner {
      MulMonotone(s + 1, owner, w);
    } else if s > owner {
      MulMonotone(owner + 1, s, w);
      assert (owner + 1) * w == owner * w + w;
    }
  }

  lemma MulMonotone(a: nat, b: nat, w: nat)
    requires a <= b
    ensures a * w <= b * w
  {}

  /** One split of _tf32_hc_prenorm_gemm_kernel for one output cell: blocks of columns, masked at the
      split's end. */
  method SplitPartial(x: seq<real>, f: seq<real>, splits: nat, s: nat, blockK: nat) returns (acc: real)
    requires splits > 0 && s < splits && blockK > 0 && |x| == |f|
    ensures acc == RangeDot(x, f, SplitBegin(|x|, splits, s), SplitBegin(|x|, splits, s + 1))
  {
    hide RangeDot;
    var width := SplitWidth(|x|, splits);
    var begin := s * width;
    var end := Least(begin + width, |x|);
    SplitEnds(|x|, splits, s);
    ghost var lo := Least(begin, |x|);
    EmptyRange(x, f, lo);
    acc := 0.0;
    var k0 := 0;
    while k0 < width
      invariant acc == RangeDot(x, f, lo, Least(lo + k0, end))
    {
      RangeDotJoin(x, f, lo, Least(lo + k0, end), Least(lo + k0 + blockK, end));
      acc := acc + MaskedBlock(x, f, begin + k0, blockK, end);
      k0 := k0 + blockK;
    }
  }

  /** Columns [from, from + size) of the product that lie below `end`. */
  function MaskedBlock(x: seq<real>, f: seq<real>, from: nat, size: nat, end: nat): real
    requires end <= |x|
  {
    RangeDot(x, f, Least(from, end), Least(from + size, end))
  }

  lemma SplitEnds(k: nat, splits: nat, s: nat)
    requires splits > 0
    ensures SplitBegin(k, splits, s) == Least(s * SplitWidth(k, splits), k)
    ensures SplitBegin(k, splits, s + 1) == Least(s * SplitWidth(k, splits) + SplitWidth(k, splits), k)
  {
    assert (s + 1) * SplitWidth(k, splits) == s * SplitWidth(k, splits) + SplitWidth(k, splits);
  }

  lemma EmptyRange(x: seq<real>, f: seq<real>, c: nat)
    requires c <= |x|
    ensures RangeDot(x, f, c, c) == 0.0
  {}

  function RangeDot(x: seq<real>, f: seq<real>, from: nat, end: nat): real
    requires end <= |x|
  {
    if from >= end then 0.0 else Sum(Products(x, f)[from..end])
  }

  lemma RangeDotJoin(x: seq<real>, f: seq<real>, a: nat, b: nat, c: nat)
    requires a <= b <= c <= |x|
    ensures RangeDot(x, f, a, b) + RangeDot(x, f, b, c) == RangeDot(x, f, a, c)
  {
    var p := Products(x, f);
    SumAppend(p[a..b], p[b..c]);
    assert p[a..b] + p[b..c] == p[a..c];
  }

  /** The partial results of all splits, as the Triton kernel stores them. */
  method TritonSplits(x: seq<real>, f: seq<real>, splits: nat, blockK: nat) returns (out: seq<real>, sqrsum: seq<real>)
    requires splits > 0 && blockK > 0 && |x| == |f|
    ensures |out| == |sqrsum| == splits
    ensures Sum(out) == Dot(x, f) && Sum(sqrsum) == Dot(x, x)
  {
    out, sqrsum := [], [];
    for s := 0 to splits
      invariant |out| == |sqrsum| == s
      invariant Sum(out) == RangeDot(x, f, 0, SplitBegin(|x|, splits, s))
      invariant Sum(sqrsum) == RangeDot(x, x, 0, SplitBegin(|x|, splits, s))
    {
      var acc := SplitPartial(x, f, splits, s, blockK);
      var sq := SplitPartial(x, x, splits, s, blockK);
      SplitEnds(|x|, splits, s);
      RangeDotJoin(x, f, 0, SplitBegin(|x|, splits, s), SplitBegin(|x|, splits, s + 1));
      RangeDotJoin(x, x, 0, SplitBegin(|x|, splits, s), SplitBegin(|x|, splits, s + 1));
      SumAppend(out, [acc]);
      SumAppend(sqrsum, [sq]);
      out, sqrsum := out + [acc], sqrsum + [sq];
    }
    SplitWidthCovers(|x|, splits);
    assert Products(x, f)[0..|x|] == Products(x, f) && Products(x, x)[0..|x|] == Products(x, x);
  }

  /** The torch fallback: everything in split zero, the rest cleared. */
  function FallbackSplits(x: seq<real>, f: seq<real>, splits: nat): (r: seq<real>)
    requires splits > 0
    ensures |r| == splits && Sum(r) == Dot(x, f)
  {
    var cleared := Zeros(splits - 1);
    ZeroSum(cleared);
    SumAppend([Dot(x, f)], cleared);
    [Dot(x, f)] + cleared
  }
}
