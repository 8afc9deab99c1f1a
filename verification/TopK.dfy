/** The indexer's streaming top-k for one row: chunk after chunk, the chunk's best are merged with the
    best so far.  torch.topk is a parameter with a contract, free to break ties differently on every
    call; masked logits are -inf and valid ones finite. */
module TopK {
  import opened Softmax

  datatype Selection = Selection(values: seq<Score>, positions: seq<nat>)

  predicate NoDup<T(==)>(s: seq<T>) {
    forall i, j :: 0 <= i < j < |s| ==> s[i] != s[j]
  }

  predicate Descending(vs: seq<Score>) {
    forall i, j :: 0 <= i < j < |vs| ==> AtMost(vs[j], vs[i])
  }

  /** One call of torch.topk: the values in descending order with their distinct positions, and no
      position left out beats one that was taken. */
  ghost predicate IsTopK(xs: seq<Score>, k: nat, s: Selection) {
    && |s.values| == |s.positions| == k
    && (forall j :: 0 <= j < k ==> s.positions[j] < |xs| && s.values[j] == xs[s.positions[j]])
    && NoDup(s.positions)
    && Descending(s.values)
    && forall u: nat, j :: u < |xs| && u !in s.positions && 0 <= j < k ==> AtMost(xs[u], s.values[j])
  }

  /** `pick(t, xs, k)` is the t-th call. */
  ghost predicate IsTopKOp(pick: (nat, seq<Score>, nat) -> Selection) {
    forall t: nat, xs: seq<Score>, k: nat :: k <= |xs| ==> IsTopK(xs, k, pick(t, xs, k))
  }

  function ValueAt(logits: seq<Score>, i: int): Score {
    if 0 <= i < |logits| then logits[i] else NegInf
  }

  predicate ValidIndex(logits: seq<Score>, i: int) {
    0 <= i < |logits| && logits[i].Fin?
  }

  /** What a row must hold: distinct valid indices in descending order of their logits, -1 where there
      is none, and every valid index that is missing at most as large as everything present. */
  ghost predicate IsRowTopK(logits: seq<Score>, k: nat, row: seq<int>) {
    && |row| == k
    && (forall j :: 0 <= j < k ==> row[j] == -1 || ValidIndex(logits, row[j]))
    && (forall i, j :: 0 <= i < j < k && row[i] == row[j] ==> row[i] == -1)
    && (forall i, j :: 0 <= i < j < k ==> AtMost(ValueAt(logits, row[j]), ValueAt(logits, row[i])))
    && forall i, j :: ValidIndex(logits, i) && i !in row && 0 <= j < k ==> AtMost(logits[i], ValueAt(logits, row[j]))
  }

  /** The same in plain terms, over reals. */
  lemma RowInPlainTerms(logits: seq<Score>, k: nat, row: seq<int>, i: int, j: nat)
    requires IsRowTopK(logits, k, row) && j < k
    ensures |row| == k
    ensures row[j] != -1 ==> 0 <= row[j] < |logits| && logits[row[j]].Fin?
    ensures 0 <= i < j && row[i] == row[j] ==> row[j] == -1
    ensures 0 <= i < j && row[j] != -1 ==> row[i] != -1 && logits[row[i]].v >= logits[row[j]].v
    ensures 0 <= i < |logits| && logits[i].Fin? && i !in row ==> row[j] != -1 && logits[row[j]].v >= logits[i].v
  {}

  // ----- counting -----

  function Elements<T(==)>(s: seq<T>): set<T> {
    set x | x in s
  }

  lemma {:induction false} NoDupCount<T>(s: seq<T>)
    requires NoDup(s)
    ensures |Elements(s)| == |s|
  {
    if s != [] {
      var front, last := s[..|s| - 1], s[|s| - 1];
      NoDupCount(front);
      assert last !in front;
      assert Elements(s) == Elements(front) + {last};
    }
  }

  lemma {:induction false} CountAtMost<T>(s: seq<T>)
    ensures |Elements(s)| <= |s|
  {
    if s != [] {
      var front, last := s[..|s| - 1], s[|s| - 1];
      CountAtMost(front);
      assert Elements(s) == Elements(front) + {last};
    }
  }

  lemma SubsetCount<T>(a: set<T>, b: set<T>)
    requires a <= b
    ensures |a| <= |b|
    ensures a != b ==> |a| < |b|
  {
    assert b == a + (b - a);
    assert |b| == |a| + |b - a|;
  }

  /** Distinct things that all occur in `b` are no more than |b|. */
  lemma Pigeonhole<T>(a: seq<T>, b: seq<T>)
    requires NoDup(a) && forall x :: x in a ==> x in b
    ensures |a| <= |b|
  {
    NoDupCount(a);
    CountAtMost(b);
    SubsetCount(Elements(a), Elements(b));
  }

  function Span(from: nat, k: nat): (r: seq<nat>)
    ensures |r| == k && forall i :: 0 <= i < k ==> r[i] == from + i
  {
    seq(k, i requires 0 <= i => from + i)
  }

  // ----- one selection -----

  /** When k entries are at least `x`, so is everything selected. */
  lemma SelectedAtLeast(xs: seq<Score>, k: nat, s: Selection, from: nat, x: Score, j: nat)
    requires IsTopK(xs, k, s) && from + k <= |xs| && j < k
    requires forall i :: from <= i < from + k ==> AtMost(x, xs[i])
    ensures AtMost(x, s.values[j])
  {
    if !AtMost(x, s.values[j]) {
      var block := Span(from, k);
      forall u | u in block ensures u in s.positions {
        assert AtMost(x, xs[u]);
        assert u !in s.positions ==> AtMost(xs[u], s.values[j]);
      }
      assert s.positions[j] !in block;
      Pigeonhole(block + [s.positions[j]], s.positions);
    }
  }

  /** A selection of everything leaves no position out. */
  lemma SelectsEverything(xs: seq<Score>, s: Selection, u: nat)
    requires IsTopK(xs, |xs|, s) && u < |xs|
    ensures u in s.positions
  {
    if u !in s.positions {
      var all := Span(0, |xs|);
      forall x | x in s.positions + [u] ensures x in all {
        assert all[x] == x;
      }
      Pigeonhole(s.positions + [u], all);
    }
  }

  // ----- one chunk -----

  /** The candidate row of a chunk: the best so far, then the chunk's own best. */
  datatype Candidates = Candidates(values: seq<Score>, indices: seq<int>)

  function Joined(logits: seq<Score>, row: seq<int>, start: nat, chosen: Selection): (c: Candidates)
    ensures |c.values| == |row| + |chosen.values| && |c.indices| == |row| + |chosen.positions|
  {
    Candidates(BestOf(logits, row) + chosen.values,
               row + seq(|chosen.positions|, j requires 0 <= j < |chosen.positions| => chosen.positions[j] + start))
  }

  /** best_values: the logits of the row's entries, -inf for -1. */
  function BestOf(logits: seq<Score>, row: seq<int>): (r: seq<Score>)
    ensures |r| == |row| && forall j :: 0 <= j < |r| ==> r[j] == ValueAt(logits, row[j])
  {
    seq(|row|, j requires 0 <= j < |row| => ValueAt(logits, row[j]))
  }

  /** gather, then masked_fill where the value is not finite. */
  function Gathered(c: Candidates, s: Selection): (r: seq<int>)
    requires forall j :: 0 <= j < |s.positions| ==> s.positions[j] < |c.indices|
    requires |s.values| == |s.positions|
    ensures |r| == |s.positions|
    ensures forall j :: 0 <= j < |r| ==> r[j] == if s.values[j].Fin? then c.indices[s.positions[j]] else -1
  {
    seq(|s.positions|, j requires 0 <= j < |s.positions| => if s.values[j].Fin? then c.indices[s.positions[j]] else -1)
  }

  /** The state of one chunk step: `row` is right for the first `start` logits, `chosen` is the
      chunk's selection and `s` the selection from the joined candidates. */
  ghost predicate ChunkStep(logits: seq<Score>, k: nat, row: seq<int>, start: nat, end: nat, chosen: Selection, s: Selection) {
    && start <= end <= |logits|
    && IsRowTopK(logits[..start], k, row)
    && IsTopK(logits[start..end], if k < end - start then k else end - start, chosen)
    && IsTopK(Joined(logits[..start], row, start, chosen).values, k, s)
  }

  /** A finite candidate is a valid index seen so far, with its own logit. */
  lemma CandidateIsValid(logits: seq<Score>, k: nat, row: seq<int>, start: nat, end: nat, chosen: Selection, s: Selection, t: nat)
    requires ChunkStep(logits, k, row, start, end, chosen, s)
    requires t < |Joined(logits[..start], row, start, chosen).values|
    ensures var c := Joined(logits[..start], row, start, chosen);
            && (c.values[t].Fin? ==> ValidIndex(logits[..end], c.indices[t]))
            && (ValidIndex(logits[..end], c.indices[t]) ==> logits[c.indices[t]] == c.values[t])
  {
    if t >= k { assert logits[start..end][chosen.positions[t - k]] == logits[start + chosen.positions[t - k]]; }
  }

  lemma CandidatesDistinct(logits: seq<Score>, k: nat, row: seq<int>, start: nat, end: nat, chosen: Selection, s: Selection, t: nat, u: nat)
    requires ChunkStep(logits, k, row, start, end, chosen, s)
    requires t < u < |Joined(logits[..start], row, start, chosen).values|
    requires var c := Joined(logits[..start], row, start, chosen); c.values[t].Fin? && c.values[u].Fin?
    ensures var c := Joined(logits[..start], row, start, chosen); c.indices[t] != c.indices[u]
  {
    if t >= k {
      assert chosen.positions[t - k] != chosen.positions[u - k];
    }
  }

  /** An earlier index that fell out of the row is dominated by the k entries of the row. */
  lemma EarlierIsDominated(logits: seq<Score>, k: nat, row: seq<int>, start: nat, end: nat, chosen: Selection, s: Selection, i: int, j: nat)
    requires ChunkStep(logits, k, row, start, end, chosen, s) && j < k
    requires ValidIndex(logits[..start], i) && i !in row
    ensures AtMost(logits[i], s.values[j])
  {
    var c := Joined(logits[..start], row, start, chosen);
    forall t | 0 <= t < k ensures AtMost(logits[i], c.values[t]) {
      assert AtMost(logits[..start][i], ValueAt(logits[..start], row[t]));
    }
    SelectedAtLeast(c.values, k, s, 0, logits[i], j);
  }

  /** An index of the chunk that the chunk's selection left out is dominated by the k entries of that. */
  lemma LaterIsDominated(logits: seq<Score>, k: nat, row: seq<int>, start: nat, end: nat, chosen: Selection, s: Selection, u: nat, j: nat)
    requires ChunkStep(logits, k, row, start, end, chosen, s) && j < k
    requires u < end - start && u !in chosen.positions
    ensures AtMost(logits[start + u], s.values[j])
  {
    var c := Joined(logits[..start], row, start, chosen);
    if k >= end - start { SelectsEverything(logits[start..end], chosen, u); }
    forall t | k <= t < k + k ensures AtMost(logits[start + u], c.values[t]) {
      assert AtMost(logits[start..end][u], chosen.values[t - k]);
    }
    SelectedAtLeast(c.values, k, s, k, logits[start + u], j);
  }

  /** A valid index that is not a candidate is dominated by k candidates. */
  lemma OutsideIsDominated(logits: seq<Score>, k: nat, row: seq<int>, start: nat, end: nat, chosen: Selection, s: Selection, i: int, j: nat)
    requires ChunkStep(logits, k, row, start, end, chosen, s) && j < k
    requires ValidIndex(logits[..end], i) && i !in Joined(logits[..start], row, start, chosen).indices
    ensures AtMost(logits[i], s.values[j])
  {
    var c := Joined(logits[..start], row, start, chosen);
    if i < start {
      forall x | x in row ensures x in c.indices {}
      EarlierIsDominated(logits, k, row, start, end, chosen, s, i, j);
    } else {
      forall t | 0 <= t < |chosen.positions| ensures chosen.positions[t] != i - start {
        assert c.indices[k + t] == chosen.positions[t] + start;
        assert c.indices[k + t] in c.indices;
      }
      LaterIsDominated(logits, k, row, start, end, chosen, s, i - start, j);
    }
  }

  /** One chunk keeps the row right, now for the logits up to the chunk's end. */
  lemma ChunkKeepsTopK(logits: seq<Score>, k: nat, row: seq<int>, start: nat, end: nat, chosen: Selection, s: Selection)
    requires ChunkStep(logits, k, row, start, end, chosen, s)
    ensures var next := Gathered(Joined(logits[..start], row, start, chosen), s);
            && IsRowTopK(logits[..end], k, next)
            && BestOf(logits[..end], next) == s.values
  {
    var c := Joined(logits[..start], row, start, chosen);
    var next := Gathered(c, s);
    var seen := logits[..end];
    forall j | 0 <= j < k
      ensures next[j] == -1 || ValidIndex(seen, next[j])
      ensures ValueAt(seen, next[j]) == s.values[j]
    {
      CandidateIsValid(logits, k, row, start, end, chosen, s, s.positions[j]);
    }
    forall i, j | 0 <= i < j < k && next[i] == next[j] ensures next[i] == -1 {
      if next[i] != -1 {
        var t, u := s.positions[i], s.positions[j];
        if t < u {
          CandidatesDistinct(logits, k, row, start, end, chosen, s, t, u);
        } else {
          CandidatesDistinct(logits, k, row, start, end, chosen, s, u, t);
        }
      }
    }
    forall i, j | ValidIndex(seen, i) && i !in next && 0 <= j < k ensures AtMost(seen[i], ValueAt(seen, next[j])) {
      if i in c.indices {
        MissedCandidate(logits, k, row, start, end, chosen, s, i, j);
      } else {
        OutsideIsDominated(logits, k, row, start, end, chosen, s, i, j);
      }
    }
  }

  /** A candidate that was not selected is at most everything that was. */
  lemma MissedCandidate(logits: seq<Score>, k: nat, row: seq<int>, start: nat, end: nat, chosen: Selection, s: Selection, i: int, j: nat)
    requires ChunkStep(logits, k, row, start, end, chosen, s) && j < k
    requires var c := Joined(logits[..start], row, start, chosen);
             ValidIndex(logits[..end], i) && i in c.indices && i !in Gathered(c, s)
    ensures AtMost(logits[i], s.values[j])
  {
    var c := Joined(logits[..start], row, start, chosen);
    var t: nat :| t < |c.indices| && c.indices[t] == i;
    CandidateIsValid(logits, k, row, start, end, chosen, s, t);
    hide Joined;
    var next := Gathered(c, s);
    forall m | 0 <= m < k ensures s.positions[m] != t {
      assert next[m] in next;
    }
  }

  /** The row and its value buffer before the first chunk. */
  lemma StartsRight(logits: seq<Score>, row: seq<int>)
    requires forall j :: 0 <= j < |row| ==> row[j] == -1
    ensures IsRowTopK(logits[..0], |row|, row)
    ensures BestOf(logits[..0], row) == seq(|row|, _ => NegInf)
  {}

  lemma ChunkIndices(logits: seq<Score>, row: seq<int>, start: nat, chosen: Selection, indices: seq<int>)
    requires start <= |logits| && |indices| == |chosen.positions|
    requires forall j :: 0 <= j < |indices| ==> indices[j] == chosen.positions[j] + start
    ensures Candidates(BestOf(logits[..start], row) + chosen.values, row + indices) == Joined(logits[..start], row, start, chosen)
  {}

  /** What both streaming loops do with the logits of one chunk: the chunk's best, joined with the best
      so far, selected from again into `out`. */
  method TakeChunk(ghost logits: seq<Score>, start: nat, chunk: seq<Score>, bestValues: seq<Score>,
                   pick: (nat, seq<Score>, nat) -> Selection, call: nat, out: array<int>)
    returns (nextBest: seq<Score>)
    requires IsTopKOp(pick)
    requires start + |chunk| <= |logits| && chunk == logits[start..start + |chunk|]
    requires IsRowTopK(logits[..start], out.Length, out[..]) && bestValues == BestOf(logits[..start], out[..])
    modifies out
    ensures IsRowTopK(logits[..start + |chunk|], out.Length, out[..])
    ensures nextBest == BestOf(logits[..start + |chunk|], out[..])
  {
    hide IsRowTopK, Joined, BestOf, NoDup;
    var k := out.Length;
    ghost var end := start + |chunk|;
    var chunkTopk := if k < |chunk| then k else |chunk|;
    var chosen := pick(call, chunk, chunkTopk);
    assert IsTopK(chunk, chunkTopk, chosen);
    var chunkIndices := seq(|chosen.positions|, j requires 0 <= j < |chosen.positions| => chosen.positions[j] + start);
    var c := Candidates(bestValues + chosen.values, out[..] + chunkIndices);
    ChunkIndices(logits, out[..], start, chosen, chunkIndices);
    var selected := pick(call + 1, c.values, k);
    assert IsTopK(c.values, k, selected);
    ChunkKeepsTopK(logits, k, out[..], start, end, chosen, selected);
    var next := Gathered(c, selected);
    forall j | 0 <= j < k { out[j] := next[j]; }
    assert out[..] == next;
    nextBest := selected.values;
  }

  /** The streaming loop over the logits of one row. */
  method StreamTopK(logits: seq<Score>, chunkSize: nat, pick: (nat, seq<Score>, nat) -> Selection, out: array<int>)
    requires chunkSize > 0 && IsTopKOp(pick)
    modifies out
    ensures IsRowTopK(logits, out.Length, out[..])
  {
    hide IsRowTopK, BestOf;
    forall j | 0 <= j < out.Length { out[j] := -1; }
    StartsRight(logits, out[..]);
    var bestValues := seq(out.Length, _ => NegInf);
    var start, call := 0, 0;
    while start < |logits|
      invariant 0 <= start <= |logits|
      invariant IsRowTopK(logits[..start], out.Length, out[..])
      invariant bestValues == BestOf(logits[..start], out[..])
    {
      var end := if start + chunkSize < |logits| then start + chunkSize else |logits|;
      bestValues := TakeChunk(logits, start, logits[start..end], bestValues, pick, call, out);
      start, call := end, call + 2;
    }
    assert logits[..start] == logits;
  }

  /** One selection from the whole row, -1 where the value is not finite. */
  function Masked(s: Selection): (row: seq<int>)
    requires |s.values| == |s.positions|
    ensures |row| == |s.positions|
    ensures forall j :: 0 <= j < |row| ==> row[j] == if s.values[j].Fin? then s.positions[j] else -1
  {
    seq(|s.positions|, j requires 0 <= j < |s.positions| => if s.values[j].Fin? then s.positions[j] as int else -1)
  }

  /** The global top-k, taken at once and masked, is a right row. */
  lemma GlobalTopK(logits: seq<Score>, k: nat, s: Selection)
    requires k <= |logits| && IsTopK(logits, k, s)
    ensures IsRowTopK(logits, k, Masked(s))
  {
    var row := Masked(s);
    forall j | 0 <= j < k ensures ValueAt(logits, row[j]) == s.values[j] {}
    forall i, j | ValidIndex(logits, i) && i !in row && 0 <= j < k ensures AtMost(logits[i], ValueAt(logits, row[j])) {
      var u: nat := i;
      forall m | 0 <= m < k ensures row[m] != i && s.positions[m] != u {
        assert row[m] in row;
      }
    }
  }

  // ----- what the row contract determines -----

  function Missing(row: seq<int>): nat {
    if row == [] then 0 else Missing(row[..|row| - 1]) + if row[|row| - 1] == -1 then 1 else 0
  }

  function ValidIndices(logits: seq<Score>): set<int> {
    set i | 0 <= i < |logits| && logits[i].Fin?
  }

  lemma ElementsNext(row: seq<int>)
    requires row != []
    ensures var front, last := row[..|row| - 1], row[|row| - 1];
            Elements(row) - {-1} == if last == -1 then Elements(front) - {-1} else (Elements(front) - {-1}) + {last}
  {
    assert row == row[..|row| - 1] + [row[|row| - 1]];
  }

  lemma AddOne<T>(a: set<T>, x: T)
    requires x !in a
    ensures |a + {x}| == |a| + 1
  {}

  lemma {:induction false} PresentCount(row: seq<int>)
    requires forall i, j :: 0 <= i < j < |row| && row[i] == row[j] ==> row[i] == -1
    ensures |Elements(row) - {-1}| == |row| - Missing(row)
  {
    if row != [] {
      var front, last := row[..|row| - 1], row[|row| - 1];
      PresentCount(front);
      ElementsNext(row);
      if last != -1 { AddOne(Elements(front) - {-1}, last); }
    }
  }

  lemma {:induction false} SomeMissing(row: seq<int>)
    ensures Missing(row) > 0 <==> -1 in row
  {
    if row != [] { SomeMissing(row[..|row| - 1]); }
  }

  /** A row has exactly max(0, k - number of valid logits) entries equal to -1. */
  lemma MissingCount(logits: seq<Score>, k: nat, row: seq<int>)
    requires IsRowTopK(logits, k, row)
    ensures Missing(row) == if k > |ValidIndices(logits)| then k - |ValidIndices(logits)| else 0
  {
    PresentCount(row);
    SomeMissing(row);
    var present, valid := Elements(row) - {-1}, ValidIndices(logits);
    assert present <= valid;
    SubsetCount(present, valid);
    if present != valid {
      var i :| i in valid && i !in present;
      assert ValidIndex(logits, i) && i !in row;
      forall j | 0 <= j < k ensures row[j] != -1 {
        assert AtMost(logits[i], ValueAt(logits, row[j]));
      }
    }
  }

  /** The values are determined: however the row was chunked and ties were broken, it holds the same
      logits in the same places as the top-k taken over the whole row at once. */
  lemma SameValues(logits: seq<Score>, k: nat, row: seq<int>, other: seq<int>, j: nat)
    requires IsRowTopK(logits, k, row) && IsRowTopK(logits, k, other) && j < k
    ensures ValueAt(logits, row[j]) == ValueAt(logits, other[j])
  {
    NotAbove(logits, k, row, other, j);
    NotAbove(logits, k, other, row, j);
  }

  /** So a streamed row holds, place by place, the logits of the global top-k. */
  lemma StreamIsGlobal(logits: seq<Score>, k: nat, row: seq<int>, s: Selection, j: nat)
    requires k <= |logits| && IsTopK(logits, k, s) && IsRowTopK(logits, k, row) && j < k
    ensures ValueAt(logits, row[j]) == s.values[j]
  {
    hide IsRowTopK, NoDup, Descending;
    GlobalTopK(logits, k, s);
    SameValues(logits, k, row, Masked(s), j);
  }

  lemma NotAbove(logits: seq<Score>, k: nat, row: seq<int>, other: seq<int>, j: nat)
    requires IsRowTopK(logits, k, row) && IsRowTopK(logits, k, other) && j < k
    ensures AtMost(ValueAt(logits, row[j]), ValueAt(logits, other[j]))
  {
    var bound := ValueAt(logits, other[j]);
    if !AtMost(ValueAt(logits, row[j]), bound) {
      forall x | x in row[..j + 1] ensures x in other[..j] {
        var i :| 0 <= i <= j && row[i] == x;
        assert i < j ==> AtMost(ValueAt(logits, row[j]), ValueAt(logits, row[i]));
        AboveIsEarlier(logits, k, other, x, j);
      }
      Pigeonhole(row[..j + 1], other[..j]);
    }
  }

  /** A valid index whose logit is above the j-th entry stands before it. */
  lemma AboveIsEarlier(logits: seq<Score>, k: nat, row: seq<int>, x: int, j: nat)
    requires IsRowTopK(logits, k, row) && j < k && ValidIndex(logits, x)
    requires !AtMost(logits[x], ValueAt(logits, row[j]))
    ensures x in row[..j]
  {
    assert x in row;
    var m :| 0 <= m < k && row[m] == x;
    assert m < j;
    assert row[..j][m] == x;
  }

  // ----- the contract of torch.topk can be met -----

  /** Positions of the first n entries in descending order of their values. */
  function Ranked(xs: seq<Score>, n: nat): seq<nat>
    requires n <= |xs|
  {
    if n == 0 then [] else Insert(xs, Ranked(xs, n - 1), n - 1)
  }

  function Insert(xs: seq<Score>, ranked: seq<nat>, p: nat): seq<nat>
    requires p < |xs|
  {
    if ranked == [] then [p]
    else if ranked[0] < |xs| && AtMost(xs[p], xs[ranked[0]]) then [ranked[0]] + Insert(xs, ranked[1..], p)
    else [p] + ranked
  }

  predicate IsRanking(xs: seq<Score>, ranked: seq<nat>) {
    && (forall i :: 0 <= i < |ranked| ==> ranked[i] < |xs|)
    && NoDup(ranked)
    && forall i, j :: 0 <= i < j < |ranked| ==> AtMost(xs[ranked[j]], xs[ranked[i]])
  }

  lemma {:induction false} InsertMembers(xs: seq<Score>, ranked: seq<nat>, p: nat)
    requires p < |xs|
    ensures forall x :: x in Insert(xs, ranked, p) <==> x == p || x in ranked
  {
    if ranked != [] {
      InsertMembers(xs, ranked[1..], p);
      assert ranked == [ranked[0]] + ranked[1..];
    }
  }

  lemma {:induction false} InsertRanks(xs: seq<Score>, ranked: seq<nat>, p: nat)
    requires p < |xs| && IsRanking(xs, ranked) && p !in ranked
    ensures IsRanking(xs, Insert(xs, ranked, p))
  {
    if ranked != [] && AtMost(xs[p], xs[ranked[0]]) {
      InsertRanks(xs, ranked[1..], p);
      InsertMembers(xs, ranked[1..], p);
      HeadRanks(xs, ranked[0], Insert(xs, ranked[1..], p));
    }
  }

  lemma HeadRanks(xs: seq<Score>, head: nat, rest: seq<nat>)
    requires head < |xs| && IsRanking(xs, rest)
    requires forall x :: x in rest ==> x < |xs| && x != head && AtMost(xs[x], xs[head])
    ensures IsRanking(xs, [head] + rest)
  {
    var all := [head] + rest;
    forall i | 0 < i < |all| ensures all[i] == rest[i - 1] && all[i] in rest {}
  }

  lemma {:induction false} RankedRanks(xs: seq<Score>, n: nat)
    requires n <= |xs|
    ensures IsRanking(xs, Ranked(xs, n))
    ensures forall x: nat :: x in Ranked(xs, n) <==> x < n
  {
    if n > 0 {
      RankedRanks(xs, n - 1);
      InsertRanks(xs, Ranked(xs, n - 1), n - 1);
      InsertMembers(xs, Ranked(xs, n - 1), n - 1);
    }
  }

  function Select(xs: seq<Score>, k: nat): Selection {
    var ranked := Ranked(xs, |xs|);
    var top := if k <= |ranked| then ranked[..k] else ranked;
    Selection(seq(|top|, j requires 0 <= j < |top| => if top[j] < |xs| then xs[top[j]] else NegInf), top)
  }

  lemma SelectIsTopK(xs: seq<Score>, k: nat)
    requires k <= |xs|
    ensures IsTopK(xs, k, Select(xs, k))
  {
    RankedRanks(xs, |xs|);
    var ranked := Ranked(xs, |xs|);
    Pigeonhole(Span(0, |xs|), ranked);
    var s := Select(xs, k);
    forall u: nat, j | u < |xs| && u !in s.positions && 0 <= j < k ensures AtMost(xs[u], s.values[j]) {
      assert u in ranked;
    }
  }

  function Pick(): (nat, seq<Score>, nat) -> Selection {
    (t: nat, xs: seq<Score>, k: nat) => Select(xs, k)
  }

  /** So the streaming results are not about an empty set of selections. */
  lemma TopKOpExists()
    ensures IsTopKOp(Pick())
  {
    var pick := Pick();
    forall t: nat, xs: seq<Score>, k: nat | k <= |xs| ensures IsTopK(xs, k, pick(t, xs, k)) {
      SelectIsTopK(xs, k);
      assert pick(t, xs, k) == Select(xs, k);
    }
  }
}
