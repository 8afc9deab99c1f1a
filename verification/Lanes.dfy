/** Candidate columns as the kernels load them, a tile of lanes at a time.

    A masked lane (past the end, past `lens`, an index outside the rows, a cleared validity bit) has
    score -inf.  The reductions over a tile's lanes are related here to the sums over the candidates
    that are left once the masked lanes are dropped. */
module Lanes {
  import opened Softmax
  import W = Wrappers

  datatype Column = Column(score: Score, row: seq<real>)

  const MASKED := Column(NegInf, [])

  function ColumnAt(cols: seq<Column>, c: nat): Column {
    if c < |cols| then cols[c] else MASKED
  }

  function KeptAt(col: Column): seq<Candidate> {
    match col.score
    case NegInf => []
    case Fin(s) => [Candidate(s, col.row)]
  }

  /** The candidates of columns [from, to), in column order. */
  function Kept(cols: seq<Column>, from: nat, to: nat): seq<Candidate>
    decreases to
  {
    if to <= from then [] else Kept(cols, from, to - 1) + KeptAt(ColumnAt(cols, to - 1))
  }

  lemma KeptNext(cols: seq<Column>, from: nat, to: nat)
    requires from < to
    ensures Kept(cols, from, to) == Kept(cols, from, to - 1) + KeptAt(ColumnAt(cols, to - 1))
  {}

  lemma KeptNone(cols: seq<Column>, from: nat, to: nat)
    requires to <= from
    ensures Kept(cols, from, to) == []
  {}

  lemma {:induction false} KeptJoin(cols: seq<Column>, a: nat, b: nat, c: nat)
    requires a <= b <= c
    ensures Kept(cols, a, b) + Kept(cols, b, c) == Kept(cols, a, c)
    decreases c
  {
    hide *;
    if b == c {
      KeptNone(cols, b, c);
    } else {
      KeptJoin(cols, a, b, c - 1);
      KeptNext(cols, b, c);
      KeptNext(cols, a, c);
      W.Regroup(Kept(cols, a, b), Kept(cols, b, c - 1), KeptAt(ColumnAt(cols, c - 1)));
    }
  }

  lemma {:induction false} KeptMasked(cols: seq<Column>, a: nat, b: nat, c: nat)
    requires a <= b <= c
    requires forall k :: b <= k < c ==> ColumnAt(cols, k).score.NegInf?
    ensures Kept(cols, a, c) == Kept(cols, a, b)
    decreases c
  {
    if b < c { KeptMasked(cols, a, b, c - 1); }
  }

  lemma {:induction false} KeptSlice(cols: seq<Column>, start: nat, end: nat, k: nat)
    requires start + k <= end <= |cols|
    ensures Kept(cols[start..end], 0, k) == Kept(cols, start, start + k)
    decreases k
  {
    if k > 0 {
      KeptSlice(cols, start, end, k - 1);
      assert ColumnAt(cols[start..end], k - 1) == ColumnAt(cols, start + k - 1);
    }
  }

  lemma KeptSnoc(cols: seq<Column>, last: Column)
    ensures Kept(cols + [last], 0, |cols| + 1) == Kept(cols, 0, |cols|) + KeptAt(last)
  {
    hide *;
    var n, more := |cols|, cols + [last];
    assert more[0..n] == cols;
    KeptSlice(more, 0, n, n);
    KeptNext(more, 0, n + 1);
    LastColumnAt(cols, last);
  }

  lemma LastColumnAt(cols: seq<Column>, last: Column)
    ensures ColumnAt(cols + [last], |cols|) == last
  {}

  // ----- one tile -----

  function TileScores(cols: seq<Column>, start: nat, k: nat): (r: seq<Score>)
    ensures |r| == k && forall j :: 0 <= j < k ==> r[j] == ColumnAt(cols, start + j).score
  {
    seq(k, j requires 0 <= j => ColumnAt(cols, start + j).score)
  }

  /** The weight vector: zero in a masked lane. */
  function TileWeights(e: real -> real, scores: seq<Score>, base: real): (r: seq<real>)
    ensures |r| == |scores| && forall j :: 0 <= j < |r| ==> r[j] == ExpFrom(e, scores[j], base)
  {
    seq(|scores|, j requires 0 <= j < |scores| => ExpFrom(e, scores[j], base))
  }

  /** One value column of the product of weights and rows, before it is summed. */
  function TileProducts(cols: seq<Column>, start: nat, weights: seq<real>, d: nat): (r: seq<real>)
    ensures |r| == |weights| && forall j :: 0 <= j < |r| ==> r[j] == Times(At(ColumnAt(cols, start + j).row, d), weights[j])
  {
    seq(|weights|, j requires 0 <= j < |weights| => Times(At(ColumnAt(cols, start + j).row, d), weights[j]))
  }

  lemma LaneKeeps(e: real -> real, col: Column, base: real, d: nat)
    ensures Top(KeptAt(col)) == col.score
    ensures Weight(e, KeptAt(col), base) == ExpFrom(e, col.score, base)
    ensures Weighted(e, KeptAt(col), base, d) == Times(At(col.row, d), ExpFrom(e, col.score, base))
  {
    if col.score.Fin? { assert KeptAt(col)[..0] == []; }
  }

  lemma {:induction false} TileTop(cols: seq<Column>, start: nat, k: nat)
    ensures MaxOf(TileScores(cols, start, k)) == Top(Kept(cols, start, start + k))
  {
    hide *;
    if k == 0 { EmptyTop(cols, start); return; }
    TileTop(cols, start, k - 1);
    ScoresNext(cols, start, k);
    KeptNext(cols, start, start + k);
    LaneKeeps(_ => 0.0, ColumnAt(cols, start + k - 1), 0.0, 0);
    TopAppend(Kept(cols, start, start + k - 1), KeptAt(ColumnAt(cols, start + k - 1)));
  }

  lemma EmptyTop(cols: seq<Column>, start: nat)
    ensures MaxOf(TileScores(cols, start, 0)) == Top(Kept(cols, start, start))
  {}

  lemma ScoresNext(cols: seq<Column>, start: nat, k: nat)
    requires k > 0
    ensures MaxOf(TileScores(cols, start, k)) == MaxScore(MaxOf(TileScores(cols, start, k - 1)), ColumnAt(cols, start + k - 1).score)
  {
    assert TileScores(cols, start, k)[..k - 1] == TileScores(cols, start, k - 1);
  }

  lemma {:induction false} TileWeight(e: real -> real, cols: seq<Column>, start: nat, k: nat, base: real)
    ensures Sum(TileWeights(e, TileScores(cols, start, k), base)) == Weight(e, Kept(cols, start, start + k), base)
  {
    hide *;
    if k == 0 { EmptyWeight(e, cols, start, base); return; }
    TileWeight(e, cols, start, k - 1, base);
    WeightsNext(e, cols, start, k, base);
    KeptNext(cols, start, start + k);
    LaneKeeps(e, ColumnAt(cols, start + k - 1), base, 0);
    WeightAppend(e, Kept(cols, start, start + k - 1), KeptAt(ColumnAt(cols, start + k - 1)), base);
  }

  lemma EmptyWeight(e: real -> real, cols: seq<Column>, start: nat, base: real)
    ensures Sum(TileWeights(e, TileScores(cols, start, 0), base)) == Weight(e, Kept(cols, start, start), base)
  {}

  lemma WeightsNext(e: real -> real, cols: seq<Column>, start: nat, k: nat, base: real)
    requires k > 0
    ensures Sum(TileWeights(e, TileScores(cols, start, k), base))
         == Sum(TileWeights(e, TileScores(cols, start, k - 1), base)) + ExpFrom(e, ColumnAt(cols, start + k - 1).score, base)
  {
    hide ExpFrom, ColumnAt;
    assert TileWeights(e, TileScores(cols, start, k), base)[..k - 1] == TileWeights(e, TileScores(cols, start, k - 1), base);
  }

  lemma {:induction false} TileColumn(e: real -> real, cols: seq<Column>, start: nat, k: nat, base: real, d: nat)
    ensures Sum(TileProducts(cols, start, TileWeights(e, TileScores(cols, start, k), base), d))
         == Weighted(e, Kept(cols, start, start + k), base, d)
  {
    hide *;
    if k == 0 { EmptyColumn(e, cols, start, base, d); return; }
    TileColumn(e, cols, start, k - 1, base, d);
    ProductsNext(e, cols, start, k, base, d);
    KeptNext(cols, start, start + k);
    LaneKeeps(e, ColumnAt(cols, start + k - 1), base, d);
    WeightedAppend(e, Kept(cols, start, start + k - 1), KeptAt(ColumnAt(cols, start + k - 1)), base, d);
  }

  lemma EmptyColumn(e: real -> real, cols: seq<Column>, start: nat, base: real, d: nat)
    ensures Sum(TileProducts(cols, start, TileWeights(e, TileScores(cols, start, 0), base), d))
         == Weighted(e, Kept(cols, start, start), base, d)
  {}

  lemma ProductsNext(e: real -> real, cols: seq<Column>, start: nat, k: nat, base: real, d: nat)
    requires k > 0
    ensures Sum(TileProducts(cols, start, TileWeights(e, TileScores(cols, start, k), base), d))
         == Sum(TileProducts(cols, start, TileWeights(e, TileScores(cols, start, k - 1), base), d))
            + Times(At(ColumnAt(cols, start + k - 1).row, d), ExpFrom(e, ColumnAt(cols, start + k - 1).score, base))
  {
    hide ExpFrom, ColumnAt, Times, At;
    var weights := TileWeights(e, TileScores(cols, start, k), base);
    var before := TileWeights(e, TileScores(cols, start, k - 1), base);
    assert TileProducts(cols, start, weights, d)[..k - 1] == TileProducts(cols, start, before, d);
  }

  lemma NoColumns(e: real -> real, cols: seq<Column>, base: real, width: nat)
    ensures Zeros(width) == Columns(e, Kept(cols, 0, 0), base, width)
  {}

  /** acc plus the product of a block's weights and rows. */
  function AddBlock(cols: seq<Column>, acc: seq<real>, start: nat, weights: seq<real>): (r: seq<real>)
    ensures |r| == |acc|
    ensures forall d :: 0 <= d < |r| ==> r[d] == acc[d] + Sum(TileProducts(cols, start, weights, d))
  {
    seq(|acc|, d requires 0 <= d < |acc| => acc[d] + Sum(TileProducts(cols, start, weights, d)))
  }

  lemma BlockAppends(e: real -> real, cols: seq<Column>, start: nat, k: nat, base: real, width: nat)
    ensures AddBlock(cols, Columns(e, Kept(cols, 0, start), base, width), start, TileWeights(e, TileScores(cols, start, k), base))
         == Columns(e, Kept(cols, 0, start + k), base, width)
  {
    hide *;
    KeptJoin(cols, 0, start, start + k);
    var weights := TileWeights(e, TileScores(cols, start, k), base);
    forall d | 0 <= d < width
      ensures AddBlock(cols, Columns(e, Kept(cols, 0, start), base, width), start, weights)[d]
           == Weighted(e, Kept(cols, 0, start + k), base, d)
    {
      TileColumn(e, cols, start, k, base, d);
      WeightedAppend(e, Kept(cols, 0, start), Kept(cols, start, start + k), base, d);
    }
  }
}
