/** The prefill side of the metadata builder: request ids per token, prefix sums of the sequence
    lengths re-based in place chunk by chunk, and one metadata record per chunk. */
module PrefillWorkspace {
  import opened Wrappers

  datatype Bound = Bound(start: nat, end: nat)

  datatype Chunk = Chunk(reqStart: nat, reqEnd: nat, tokenStart: nat, tokenEnd: nat, totalSeqLen: nat)

  datatype Prefill = Prefill(requestIds: seq<int>, workspaceStarts: seq<int>, chunks: seq<Chunk>)

  /** Total length of requests [from, until). */
  function Total(lens: seq<nat>, from: nat, until: nat): nat
    requires until <= |lens|
    decreases until
  {
    if until <= from then 0 else Total(lens, from, until - 1) + lens[until - 1]
  }

  lemma {:induction false} TotalJoin(lens: seq<nat>, a: nat, b: nat, c: nat)
    requires a <= b <= c <= |lens|
    ensures Total(lens, a, b) + Total(lens, b, c) == Total(lens, a, c)
    decreases c
  {
    if b < c { TotalJoin(lens, a, b, c - 1); }
  }

  /** Where chunk k must begin: the end of the chunk before it. */
  function EndBefore(bounds: seq<Bound>, k: nat): nat
    requires k <= |bounds|
  {
    if k == 0 then 0 else bounds[k - 1].end
  }

  /** What split_prefill_chunks promises: consecutive non-empty ranges of requests that cover all of
      them, each within the workspace. */
  predicate SplitsRequests(bounds: seq<Bound>, lens: seq<nat>, buffer: nat) {
    && (forall k :: 0 <= k < |bounds| ==> bounds[k].start < bounds[k].end <= |lens|)
    && (forall k {:trigger EndBefore(bounds, k)} :: 0 <= k < |bounds| ==> bounds[k].start == EndBefore(bounds, k))
    && (forall k :: 0 <= k < |bounds| ==> bounds[k].end <= |lens| && Total(lens, bounds[k].start, bounds[k].end) <= buffer)
    && EndBefore(bounds, |bounds|) == |lens|
  }

  /** query_start_loc: where each request's tokens begin, decodes first. */
  predicate IsQueryStart(queryStart: seq<nat>, requests: nat, tokens: nat) {
    && |queryStart| == requests + 1
    && (forall i, j :: 0 <= i <= j < |queryStart| ==> queryStart[i] <= queryStart[j])
    && queryStart[requests] <= tokens
  }

  /** Such bounds exist whenever every request fits by itself: one chunk a request. */
  lemma SplitExists(lens: seq<nat>, buffer: nat) returns (bounds: seq<Bound>)
    requires forall i :: 0 <= i < |lens| ==> lens[i] <= buffer
    ensures SplitsRequests(bounds, lens, buffer)
  {
    bounds := seq(|lens|, k requires 0 <= k < |lens| => Bound(k, k + 1));
    forall k | 0 <= k < |bounds| ensures Total(lens, bounds[k].start, bounds[k].end) <= buffer {
      assert Total(lens, k, k) == 0;
    }
  }

  /** And the running totals of the requests' token counts are query starts. */
  lemma QueryStartExists(counts: seq<nat>) returns (queryStart: seq<nat>)
    ensures |queryStart| == |counts| + 1 && forall i :: 0 <= i <= |counts| ==> queryStart[i] == Total(counts, 0, i)
    ensures IsQueryStart(queryStart, |counts|, Total(counts, 0, |counts|))
  {
    queryStart := seq(|counts| + 1, i requires 0 <= i <= |counts| => Total(counts, 0, i));
    forall i, j | 0 <= i <= j < |queryStart| ensures queryStart[i] <= queryStart[j] {
      TotalJoin(counts, 0, i, j);
    }
  }

  predicate OwnsToken(queryStart: seq<nat>, numDecodes: nat, req: nat, t: int)
    requires numDecodes + req + 1 < |queryStart|
  {
    queryStart[numDecodes + req] <= t < queryStart[numDecodes + req + 1]
  }

  /** Request ids: the owning prefill request, -1 for every other token. */
  predicate HasRequestIds(ids: seq<int>, queryStart: seq<nat>, numDecodes: nat, filled: nat)
    requires numDecodes + filled < |queryStart|
  {
    forall t :: 0 <= t < |ids| ==>
      && (ids[t] == -1 || 0 <= ids[t] < filled)
      && forall req: nat :: req < filled ==> (ids[t] == req <==> OwnsToken(queryStart, numDecodes, req, t))
  }

  /** A chunk as the prefill kernels rely on it. */
  predicate ChunkIsRight(c: Chunk, b: Bound, lens: seq<nat>, queryStart: seq<nat>, numDecodes: nat, buffer: nat)
    requires b.end <= |lens| && b.start <= b.end && numDecodes + |lens| < |queryStart|
  {
    && c.reqStart == b.start && c.reqEnd == b.end
    && c.tokenStart == queryStart[numDecodes + b.start] && c.tokenEnd == queryStart[numDecodes + b.end]
    && c.totalSeqLen == Total(lens, b.start, b.end) && c.totalSeqLen <= buffer
  }

  predicate StartsAreRight(starts: seq<int>, b: Bound, lens: seq<nat>)
    requires b.end <= |lens| == |starts|
  {
    forall i :: b.start <= i < b.end ==> starts[i] == Total(lens, b.start, i)
  }

  /** prefill_request_id: -1 everywhere, then each prefill request's range. */
  method FillRequestIds(queryStart: seq<nat>, numDecodes: nat, numPrefills: nat, numTokens: nat) returns (ids: array<int>)
    requires IsQueryStart(queryStart, numDecodes + numPrefills, numTokens)
    ensures fresh(ids) && ids.Length == numTokens
    ensures HasRequestIds(ids[..], queryStart, numDecodes, numPrefills)
    ensures forall t :: 0 <= t < numTokens ==> -1 <= ids[t] < numPrefills
  {
    ids := new int[numTokens](_ => -1);
    for req := 0 to numPrefills
      invariant forall t :: 0 <= t < numTokens ==> ids[t] == -1 || 0 <= ids[t] < req
      invariant forall t, r: nat :: 0 <= t < numTokens && r < req ==> (ids[t] == r <==> OwnsToken(queryStart, numDecodes, r, t))
    {
      var start, end := queryStart[numDecodes + req], queryStart[numDecodes + req + 1];
      assert end <= queryStart[numDecodes + numPrefills];
      forall t, r: nat | start <= t < end && r < req ensures !OwnsToken(queryStart, numDecodes, r, t) {
        assert queryStart[numDecodes + r + 1] <= queryStart[numDecodes + req];
      }
      forall t | start <= t < end { ids[t] := req; }
    }
  }

  /** prefill_workspace_starts before the chunk loop: prefix sums of the sequence lengths. */
  method PrefixSums(lens: seq<nat>) returns (starts: array<int>)
    ensures fresh(starts) && starts.Length == |lens|
    ensures forall i :: 0 <= i < |lens| ==> starts[i] == Total(lens, 0, i)
  {
    starts := new int[|lens|](_ => 0);
    var sum := 0;
    for i := 0 to |lens|
      invariant sum == Total(lens, 0, i)
      invariant forall j :: 0 <= j < i ==> starts[j] == Total(lens, 0, j)
    {
      starts[i] := sum;
      sum := sum + lens[i];
    }
  }

  /** One chunk's slice, re-based in place to start at zero by the value its first entry still holds
      from the prefix sums. */
  method RebaseSlice(lens: seq<nat>, b: Bound, starts: array<int>)
    requires b.start < b.end <= |lens| == starts.Length
    requires forall i :: b.start <= i < b.end ==> starts[i] == Total(lens, 0, i)
    modifies starts
    ensures StartsAreRight(starts[..], b, lens)
    ensures forall i :: 0 <= i < starts.Length && !(b.start <= i < b.end) ==> starts[i] == old(starts[i])
  {
    var offset := starts[b.start];
    forall i | b.start <= i < b.end ensures starts[i] - offset == Total(lens, b.start, i) {
      TotalJoin(lens, 0, b.start, i);
    }
    forall i | b.start <= i < b.end { starts[i] := starts[i] - offset; }
  }

  function ChunkFor(b: Bound, lens: seq<nat>, queryStart: seq<nat>, numDecodes: nat, ghost buffer: nat): (c: Chunk)
    requires b.start <= b.end <= |lens| && numDecodes + |lens| < |queryStart|
    requires Total(lens, b.start, b.end) <= buffer
    ensures ChunkIsRight(c, b, lens, queryStart, numDecodes, buffer)
  {
    Chunk(b.start, b.end, queryStart[numDecodes + b.start], queryStart[numDecodes + b.end], Total(lens, b.start, b.end))
  }

  /** The chunk loop over the bounds. */
  method RebaseChunks(lens: seq<nat>, queryStart: seq<nat>, numDecodes: nat, bounds: seq<Bound>, buffer: nat, starts: array<int>)
    returns (chunks: seq<Chunk>)
    requires SplitsRequests(bounds, lens, buffer) && starts.Length == |lens|
    requires numDecodes + |lens| < |queryStart|
    requires forall i :: 0 <= i < |lens| ==> starts[i] == Total(lens, 0, i)
    modifies starts
    ensures |chunks| == |bounds|
    ensures forall k :: 0 <= k < |bounds| ==> ChunkIsRight(chunks[k], bounds[k], lens, queryStart, numDecodes, buffer)
    ensures forall k :: 0 <= k < |bounds| ==> StartsAreRight(starts[..], bounds[k], lens)
  {
    hide Total, ChunkIsRight, ChunkFor;
    chunks := [];
    for k := 0 to |bounds|
      invariant |chunks| == k
      invariant forall j :: 0 <= j < k ==> ChunkIsRight(chunks[j], bounds[j], lens, queryStart, numDecodes, buffer)
      invariant forall j :: 0 <= j < k ==> bounds[j].end <= EndBefore(bounds, k)
      invariant forall j :: 0 <= j < k ==> StartsAreRight(starts[..], bounds[j], lens)
      invariant forall i :: EndBefore(bounds, k) <= i < |lens| ==> starts[i] == Total(lens, 0, i)
    {
      var b := bounds[k];
      RebaseSlice(lens, b, starts);
      chunks := chunks + [ChunkFor(b, lens, queryStart, numDecodes, buffer)];
    }
  }

  /** The prefill part of _build_fp8_separate_prefill_decode; nothing when there are no prefills. */
  method BuildPrefill(lens: seq<nat>, queryStart: seq<nat>, numDecodes: nat, numTokens: nat, bounds: seq<Bound>, buffer: nat)
    returns (prefill: Option<Prefill>)
    requires SplitsRequests(bounds, lens, buffer)
    requires IsQueryStart(queryStart, numDecodes + |lens|, numTokens)
    ensures prefill.None? <==> lens == []
    ensures prefill.Some? ==> IsPrefill(prefill.value, lens, queryStart, numDecodes, numTokens, bounds, buffer)
  {
    if |lens| == 0 { return None; }
    var ids := FillRequestIds(queryStart, numDecodes, |lens|, numTokens);
    var starts := PrefixSums(lens);
    var chunks := RebaseChunks(lens, queryStart, numDecodes, bounds, buffer, starts);
    prefill := Some(Prefill(ids[..], starts[..], chunks));
  }

  predicate IsPrefill(p: Prefill, lens: seq<nat>, queryStart: seq<nat>, numDecodes: nat, numTokens: nat, bounds: seq<Bound>, buffer: nat)
    requires SplitsRequests(bounds, lens, buffer)
    requires IsQueryStart(queryStart, numDecodes + |lens|, numTokens)
  {
    && |p.requestIds| == numTokens && HasRequestIds(p.requestIds, queryStart, numDecodes, |lens|)
    && |p.workspaceStarts| == |lens| && |p.chunks| == |bounds|
    && forall k :: 0 <= k < |bounds| ==>
         && ChunkIsRight(p.chunks[k], bounds[k], lens, queryStart, numDecodes, buffer)
         && StartsAreRight(p.workspaceStarts, bounds[k], lens)
  }

  /** The same in plain terms, for token t, request r, chunk k and a request i in it. */
  lemma PrefillPlainly(p: Prefill, lens: seq<nat>, queryStart: seq<nat>, numDecodes: nat, numTokens: nat, bounds: seq<Bound>, buffer: nat,
                       t: nat, r: nat, k: nat, i: nat)
    requires SplitsRequests(bounds, lens, buffer) && IsQueryStart(queryStart, numDecodes + |lens|, numTokens)
    requires IsPrefill(p, lens, queryStart, numDecodes, numTokens, bounds, buffer)
    requires t < numTokens && r < |lens| && k < |bounds| && bounds[k].start <= i < bounds[k].end
    ensures |p.requestIds| == numTokens && -1 <= p.requestIds[t] < |lens|
    ensures p.requestIds[t] == r <==> queryStart[numDecodes + r] <= t < queryStart[numDecodes + r + 1]
    ensures |p.chunks| == |bounds| && p.chunks[k].reqStart == bounds[k].start && p.chunks[k].reqEnd == bounds[k].end
    ensures p.chunks[k].tokenStart == queryStart[numDecodes + bounds[k].start]
    ensures p.chunks[k].tokenEnd == queryStart[numDecodes + bounds[k].end]
    ensures |p.workspaceStarts| == |lens|
    ensures p.workspaceStarts[i] == if i == bounds[k].start then 0 else p.workspaceStarts[i - 1] + lens[i - 1]
    ensures p.workspaceStarts[i] + lens[i] <= p.chunks[k].totalSeqLen <= buffer
    ensures i + 1 == bounds[k].end ==> p.workspaceStarts[i] + lens[i] == p.chunks[k].totalSeqLen
  {
    assert OwnsToken(queryStart, numDecodes, r, t) <==> queryStart[numDecodes + r] <= t < queryStart[numDecodes + r + 1];
    TotalJoin(lens, bounds[k].start, i + 1, bounds[k].end);
  }

  // ----- what the kernels rely on -----

  /** The request of chunk `b` whose workspace interval holds position x. */
  function Owner(lens: seq<nat>, from: nat, until: nat, x: nat): nat
    requires until <= |lens| && x < Total(lens, from, until)
    decreases until
  {
    if x >= Total(lens, from, until - 1) then until - 1 else Owner(lens, from, until - 1, x)
  }

  lemma {:induction false} OwnerIsUnique(lens: seq<nat>, from: nat, until: nat, x: nat, i: nat)
    requires until <= |lens| && x < Total(lens, from, until) && from <= i < until
    ensures from <= Owner(lens, from, until, x) < until
    ensures Total(lens, from, i) <= x < Total(lens, from, i) + lens[i] <==> i == Owner(lens, from, until, x)
    decreases until
  {
    if x >= Total(lens, from, until - 1) {
      if i < until - 1 { TotalJoin(lens, from, i + 1, until - 1); }
    } else if i < until - 1 {
      OwnerIsUnique(lens, from, until - 1, x, i);
    } else {
      OwnerIsUnique(lens, from, until - 1, x, from);
    }
  }

  /** The workspace intervals of a chunk are zero-based and tile [0, total): every position belongs to
      exactly one request, and no interval leaves the workspace. */
  lemma ChunkTilesWorkspace(p: Prefill, lens: seq<nat>, queryStart: seq<nat>, numDecodes: nat, numTokens: nat,
                            bounds: seq<Bound>, buffer: nat, k: nat, i: nat, x: nat)
    requires SplitsRequests(bounds, lens, buffer)
    requires IsQueryStart(queryStart, numDecodes + |lens|, numTokens)
    requires IsPrefill(p, lens, queryStart, numDecodes, numTokens, bounds, buffer)
    requires k < |bounds| && bounds[k].start <= i < bounds[k].end
    ensures var c := p.chunks[k];
            && p.workspaceStarts[c.reqStart] == 0
            && 0 <= p.workspaceStarts[i] && p.workspaceStarts[i] + lens[i] <= c.totalSeqLen <= buffer
            && (x < c.totalSeqLen ==>
                  && c.reqStart <= Owner(lens, c.reqStart, c.reqEnd, x) < c.reqEnd
                  && (p.workspaceStarts[i] <= x < p.workspaceStarts[i] + lens[i] <==> i == Owner(lens, c.reqStart, c.reqEnd, x)))
  {
    var b := bounds[k];
    TotalJoin(lens, b.start, i + 1, b.end);
    if x < p.chunks[k].totalSeqLen {
      OwnerIsUnique(lens, b.start, b.end, x, i);
    }
  }

  /** Which chunk a request falls into. */
  lemma {:induction false} ChunkOfRequest(bounds: seq<Bound>, lens: seq<nat>, buffer: nat, req: nat, upTo: nat) returns (k: nat)
    requires SplitsRequests(bounds, lens, buffer) && 0 < upTo <= |bounds| && req < bounds[upTo - 1].end
    ensures k < upTo && bounds[k].start <= req < bounds[k].end
    decreases upTo
  {
    if bounds[upTo - 1].start <= req {
      k := upTo - 1;
    } else {
      assert bounds[upTo - 1].start == EndBefore(bounds, upTo - 1);
      k := ChunkOfRequest(bounds, lens, buffer, req, upTo - 1);
    }
  }

  /** The token slices partition the prefill tokens, and a token lies in the slice of the chunk that
      holds its request and in no other. */
  lemma TokensMatchChunks(p: Prefill, lens: seq<nat>, queryStart: seq<nat>, numDecodes: nat, numTokens: nat,
                          bounds: seq<Bound>, buffer: nat, k: nat, t: nat)
    requires SplitsRequests(bounds, lens, buffer)
    requires IsQueryStart(queryStart, numDecodes + |lens|, numTokens)
    requires IsPrefill(p, lens, queryStart, numDecodes, numTokens, bounds, buffer)
    requires k < |bounds| && t < numTokens
    ensures p.chunks[k].tokenStart <= t < p.chunks[k].tokenEnd
       <==> p.chunks[k].reqStart <= p.requestIds[t] < p.chunks[k].reqEnd
    ensures k + 1 < |bounds| ==> p.chunks[k].tokenEnd == p.chunks[k + 1].tokenStart
    ensures p.chunks[0].tokenStart == queryStart[numDecodes]
    ensures p.chunks[|bounds| - 1].tokenEnd == queryStart[numDecodes + |lens|]
  {
    var b := bounds[k];
    var id := p.requestIds[t];
    assert k + 1 < |bounds| ==> bounds[k + 1].start == EndBefore(bounds, k + 1);
    assert bounds[0].start == EndBefore(bounds, 0);
    if b.start <= id < b.end {
      assert OwnsToken(queryStart, numDecodes, id, t);
      assert queryStart[numDecodes + b.start] <= queryStart[numDecodes + id];
      assert queryStart[numDecodes + id + 1] <= queryStart[numDecodes + b.end];
    }
    if queryStart[numDecodes + b.start] <= t < queryStart[numDecodes + b.end] {
      var req := TokenOwner(queryStart, numDecodes, b.start, b.end, t);
      assert p.requestIds[t] == req;
    }
  }

  /** Every prefill token is covered by some chunk. */
  lemma TokenHasChunk(p: Prefill, lens: seq<nat>, queryStart: seq<nat>, numDecodes: nat, numTokens: nat,
                      bounds: seq<Bound>, buffer: nat, t: nat) returns (k: nat)
    requires SplitsRequests(bounds, lens, buffer) && lens != []
    requires IsQueryStart(queryStart, numDecodes + |lens|, numTokens)
    requires IsPrefill(p, lens, queryStart, numDecodes, numTokens, bounds, buffer)
    requires queryStart[numDecodes] <= t < queryStart[numDecodes + |lens|]
    ensures k < |bounds| && p.chunks[k].tokenStart <= t < p.chunks[k].tokenEnd
  {
    var req := TokenOwner(queryStart, numDecodes, 0, |lens|, t);
    k := ChunkOfRequest(bounds, lens, buffer, req, |bounds|);
    assert p.requestIds[t] == req;
    TokensMatchChunks(p, lens, queryStart, numDecodes, numTokens, bounds, buffer, k, t);
  }

  /** A token between two request starts is owned by a request in between. */
  lemma {:induction false} TokenOwner(queryStart: seq<nat>, numDecodes: nat, from: nat, until: nat, t: nat) returns (req: nat)
    requires numDecodes + until < |queryStart| && from <= until
    requires queryStart[numDecodes + from] <= t < queryStart[numDecodes + until]
    ensures from <= req < until && OwnsToken(queryStart, numDecodes, req, t)
    decreases until
  {
    if t >= queryStart[numDecodes + until - 1] {
      req := until - 1;
    } else {
      req := TokenOwner(queryStart, numDecodes, from, until - 1, t);
    }
  }
}
