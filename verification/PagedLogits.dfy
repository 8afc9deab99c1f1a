/** Paged indexer logits: the packed cache views, and the rowwise kernel, the 2D kernel and the torch
    loop that read keys through a block table. */
module PagedLogits {
  import opened Softmax
  import opened MqaLogits

  // ----- the packed views -----

  /** A cache block in storage: `blockSize` value rows of `headDim` bytes, then as many scale rows of
      `scaleBytes` bytes. */
  datatype Layout = Layout(blockSize: nat, headDim: nat, scaleBytes: nat, blockStride: nat, base: nat)

  function BlockBytes(v: Layout): nat {
    v.blockSize * (v.headDim + v.scaleBytes)
  }

  /** Blocks may not overlap; a contiguous cache has stride exactly BlockBytes. */
  predicate Separate(v: Layout) {
    v.blockStride >= BlockBytes(v)
  }

  /** Offsets inside a block, as the two strided views compute them. */
  function ValueInBlock(v: Layout, slot: nat, d: nat): nat {
    slot * v.headDim + d
  }

  function ScaleInBlock(v: Layout, slot: nat, j: nat): nat {
    v.blockSize * v.headDim + (slot * v.scaleBytes + j)
  }

  function ByteOffset(v: Layout, block: nat, inBlock: nat): nat {
    v.base + block * v.blockStride + inBlock
  }

  /** A byte of the cache, named by what the views say it holds. */
  datatype Use = ValueByte(slot: nat, d: nat) | ScaleByte(slot: nat, j: nat)

  predicate InView(v: Layout, u: Use) {
    u.slot < v.blockSize && match u case ValueByte(_, d) => d < v.headDim case ScaleByte(_, j) => j < v.scaleBytes
  }

  function Place(v: Layout, u: Use): nat {
    match u
    case ValueByte(slot, d) => ValueInBlock(v, slot, d)
    case ScaleByte(slot, j) => ScaleInBlock(v, slot, j)
  }

  /** What a byte of a block is used for: the inverse of `Place`. */
  function UseOf(v: Layout, offset: nat): Use
    requires v.headDim > 0 && v.scaleBytes > 0
  {
    var values := v.blockSize * v.headDim;
    if offset < values then ValueByte(offset / v.headDim, offset % v.headDim)
    else ScaleByte((offset - values) / v.scaleBytes, (offset - values) % v.scaleBytes)
  }

  lemma QuotientUnique(width: nat, q: nat, m: nat, r: nat, c: nat)
    requires m < width && c < width && q * width + m == r * width + c
    ensures q == r && m == c
  {
    if q < r {
      MulMonotone(q + 1, r, width);
      Successor(q, width);
    } else if r < q {
      MulMonotone(r + 1, q, width);
      Successor(r, width);
    }
  }

  lemma Successor(n: nat, width: nat)
    ensures (n + 1) * width == n * width + width
  {}

  lemma DivMod(x: nat, width: nat)
    requires width > 0
    ensures (x / width) * width + x % width == x && x % width < width
  {}

  lemma RowMajor(rows: nat, width: nat, r: nat, c: nat)
    requires r < rows && c < width
    ensures r * width + c < rows * width
    ensures (r * width + c) / width == r && (r * width + c) % width == c
  {
    MulMonotone(r + 1, rows, width);
    Successor(r, width);
    var x := r * width + c;
    DivMod(x, width);
    QuotientUnique(width, x / width, x % width, r, c);
  }

  lemma RowMajorInverse(rows: nat, width: nat, x: nat)
    requires width > 0 && x < rows * width
    ensures x / width < rows && x % width < width && (x / width) * width + x % width == x
  {
    DivMod(x, width);
    if x / width >= rows { MulMonotone(rows, x / width, width); }
  }

  lemma BlockIsValuesAndScales(v: Layout)
    ensures BlockBytes(v) == v.blockSize * v.headDim + v.blockSize * v.scaleBytes
  {}

  /** The two views tile a block: every view element has its own byte, and every byte of the block
      belongs to exactly one view element. */
  lemma ViewsTileBlock(v: Layout, u: Use, offset: nat)
    requires v.headDim > 0 && v.scaleBytes > 0
    ensures InView(v, u) ==> Place(v, u) < BlockBytes(v) && UseOf(v, Place(v, u)) == u
    ensures offset < BlockBytes(v) ==> InView(v, UseOf(v, offset)) && Place(v, UseOf(v, offset)) == offset
  {
    if InView(v, u) { PlaceHasUse(v, u); }
    if offset < BlockBytes(v) { UseHasPlace(v, offset); }
  }

  lemma PlaceHasUse(v: Layout, u: Use)
    requires v.headDim > 0 && v.scaleBytes > 0 && InView(v, u)
    ensures Place(v, u) < BlockBytes(v) && UseOf(v, Place(v, u)) == u
  {
    BlockIsValuesAndScales(v);
    hide BlockBytes;
    match u
    case ValueByte(slot, d) => RowMajor(v.blockSize, v.headDim, slot, d);
    case ScaleByte(slot, j) => RowMajor(v.blockSize, v.scaleBytes, slot, j);
  }

  lemma UseHasPlace(v: Layout, offset: nat)
    requires v.headDim > 0 && v.scaleBytes > 0 && offset < BlockBytes(v)
    ensures InView(v, UseOf(v, offset)) && Place(v, UseOf(v, offset)) == offset
  {
    BlockIsValuesAndScales(v);
    hide BlockBytes;
    var values := v.blockSize * v.headDim;
    if offset < values {
      RowMajorInverse(v.blockSize, v.headDim, offset);
    } else {
      RowMajorInverse(v.blockSize, v.scaleBytes, offset - values);
    }
  }

  /** So elements of different blocks or different uses never share a byte of storage. */
  lemma ViewsDisjoint(v: Layout, b: nat, u: Use, c: nat, w: Use)
    requires v.headDim > 0 && v.scaleBytes > 0 && Separate(v) && InView(v, u) && InView(v, w)
    ensures ByteOffset(v, b, Place(v, u)) == ByteOffset(v, c, Place(v, w)) <==> b == c && u == w
  {
    PlaceHasUse(v, u);
    PlaceHasUse(v, w);
    hide Place, UseOf, BlockBytes;
    if b < c {
      StrideApart(v.blockStride, b, c);
    } else if c < b {
      StrideApart(v.blockStride, c, b);
    }
  }

  lemma StrideApart(stride: nat, b: nat, c: nat)
    requires b < c
    ensures b * stride + stride <= c * stride
  {
    MulMonotone(b + 1, c, stride);
    Successor(b, stride);
  }

  // ----- keys through the block table -----

  /** The cache storage with its number formats; a decode context of one row. */
  datatype Paged = Paged(
    storage: seq<int>,
    fp8: int -> real,
    fp32: (int, int, int, int) -> real,
    layout: Layout,
    query: Query,
    table: seq<nat>,
    contextLen: int)

  function Byte(p: Paged, block: nat, u: Use): int {
    var offset := ByteOffset(p.layout, block, Place(p.layout, u));
    if offset < |p.storage| then p.storage[offset] else 0
  }

  function RawKey(p: Paged, block: nat, slot: nat): seq<real> {
    seq(p.layout.headDim, d requires 0 <= d => p.fp8(Byte(p, block, ValueByte(slot, d))))
  }

  function KeyScale(p: Paged, block: nat, slot: nat): real {
    p.fp32(Byte(p, block, ScaleByte(slot, 0)), Byte(p, block, ScaleByte(slot, 1)),
           Byte(p, block, ScaleByte(slot, 2)), Byte(p, block, ScaleByte(slot, 3)))
  }

  /** What a key is on storage: element d of slot s in block b is one byte of the block's value rows. */
  lemma KeyOnStorage(p: Paged, block: nat, slot: nat, d: nat)
    requires d < p.layout.headDim
    requires p.layout.base + block * p.layout.blockStride + slot * p.layout.headDim + d < |p.storage|
    ensures |RawKey(p, block, slot)| == p.layout.headDim
    ensures RawKey(p, block, slot)[d]
         == p.fp8(p.storage[p.layout.base + block * p.layout.blockStride + slot * p.layout.headDim + d])
  {
    var at := p.layout.base + block * p.layout.blockStride + slot * p.layout.headDim + d;
    assert ByteOffset(p.layout, block, Place(p.layout, ValueByte(slot, d))) == at;
    assert Byte(p, block, ValueByte(slot, d)) == p.storage[at];
  }

  /** And its scale is the fp32 number in the first four bytes of its row behind the values, in order. */
  lemma ScaleOnStorage(p: Paged, block: nat, slot: nat)
    requires var at := p.layout.base + block * p.layout.blockStride + p.layout.blockSize * p.layout.headDim
                       + slot * p.layout.scaleBytes;
             at + 3 < |p.storage|
    ensures var at := p.layout.base + block * p.layout.blockStride + p.layout.blockSize * p.layout.headDim
                      + slot * p.layout.scaleBytes;
            KeyScale(p, block, slot) == p.fp32(p.storage[at], p.storage[at + 1], p.storage[at + 2], p.storage[at + 3])
  {
    var at := p.layout.base + block * p.layout.blockStride + p.layout.blockSize * p.layout.headDim
              + slot * p.layout.scaleBytes;
    forall j: nat | j < 4 ensures Byte(p, block, ScaleByte(slot, j)) == p.storage[at + j] {
      assert ByteOffset(p.layout, block, Place(p.layout, ScaleByte(slot, j))) == at + j;
    }
  }

  /** Writing one byte, a view element, changes no key and no scale but the one that element belongs to. */
  lemma OneByteOneOwner(p: Paged, other: Paged, block: nat, u: Use, b: nat, slot: nat)
    requires p.layout.headDim > 0 && p.layout.scaleBytes >= 4 && Separate(p.layout)
    requires InView(p.layout, u) && slot < p.layout.blockSize
    requires other == p.(storage := other.storage) && |other.storage| == |p.storage|
    requires forall i :: 0 <= i < |p.storage| && i != ByteOffset(p.layout, block, Place(p.layout, u)) ==> other.storage[i] == p.storage[i]
    ensures !(u.ValueByte? && b == block && slot == u.slot) ==> RawKey(other, b, slot) == RawKey(p, b, slot)
    ensures !(u.ScaleByte? && b == block && slot == u.slot) ==> KeyScale(other, b, slot) == KeyScale(p, b, slot)
  {
    if !(u.ValueByte? && b == block && slot == u.slot) {
      forall d: nat | d < p.layout.headDim ensures Byte(other, b, ValueByte(slot, d)) == Byte(p, b, ValueByte(slot, d)) {
        OtherByte(p, other, block, u, b, ValueByte(slot, d));
      }
      assert RawKey(other, b, slot) == RawKey(p, b, slot);
    }
    if !(u.ScaleByte? && b == block && slot == u.slot) {
      forall j: nat | j < 4 ensures Byte(other, b, ScaleByte(slot, j)) == Byte(p, b, ScaleByte(slot, j)) {
        OtherByte(p, other, block, u, b, ScaleByte(slot, j));
      }
    }
  }

  lemma OtherByte(p: Paged, other: Paged, block: nat, u: Use, b: nat, w: Use)
    requires p.layout.headDim > 0 && p.layout.scaleBytes > 0 && Separate(p.layout)
    requires InView(p.layout, u) && InView(p.layout, w) && !(b == block && w == u)
    requires other == p.(storage := other.storage) && |other.storage| == |p.storage|
    requires forall i :: 0 <= i < |p.storage| && i != ByteOffset(p.layout, block, Place(p.layout, u)) ==> other.storage[i] == p.storage[i]
    ensures Byte(other, b, w) == Byte(p, b, w)
  {
    ViewsDisjoint(p.layout, block, u, b, w);
    hide Place, ByteOffset, InView, Separate;
  }

  /** The table must reach every token the kernel looks up. */
  predicate TableCovers(p: Paged, tokens: int) {
    p.layout.blockSize > 0 && tokens <= |p.table| * p.layout.blockSize
  }

  lemma TokenInTable(p: Paged, tokens: int, t: nat)
    requires TableCovers(p, tokens) && t < tokens
    ensures t / p.layout.blockSize < |p.table|
  {
    RowMajorInverse(|p.table|, p.layout.blockSize, t);
  }

  function TokenBlock(p: Paged, t: nat): nat
    requires p.layout.blockSize > 0
  {
    if t / p.layout.blockSize < |p.table| then p.table[t / p.layout.blockSize] else 0
  }

  /** The logit of logical token t, directly: its dequantized key under the weighted heads. */
  function TokenLogit(p: Paged, t: nat): real
    requires p.layout.blockSize > 0
  {
    var block, slot := TokenBlock(p, t), t % p.layout.blockSize;
    Logit(p.query, Scaled(RawKey(p, block, slot), KeyScale(p, block, slot)))
  }

  /** The logit of a token in plain terms: the heads over the key whose element d is the fp8 byte of the
      token's own slot times the token's own scale. */
  lemma TokenLogitPlainly(p: Paged, t: nat, key: seq<real>)
    requires p.layout.blockSize > 0 && t / p.layout.blockSize < |p.table| && |key| == p.layout.headDim
    requires forall d :: 0 <= d < |key| ==>
               key[d] == RawKey(p, p.table[t / p.layout.blockSize], t % p.layout.blockSize)[d]
                         * KeyScale(p, p.table[t / p.layout.blockSize], t % p.layout.blockSize)
    ensures TokenLogit(p, t) == Logit(p.query, key)
  {
    hide Logit, KeyScale;
    var block, slot := p.table[t / p.layout.blockSize], t % p.layout.blockSize;
    var raw, scale := RawKey(p, block, slot), KeyScale(p, block, slot);
    forall d | 0 <= d < |key| ensures Scaled(raw, scale)[d] == key[d] {
      ScaledPlainly(raw, scale, d);
    }
    assert Scaled(raw, scale) == key;
  }

  /** -inf exactly at or past the context length. */
  function PagedLogit(p: Paged, t: nat): Score
    requires p.layout.blockSize > 0
  {
    if t < p.contextLen then Fin(TokenLogit(p, t)) else NegInf
  }

  predicate HoldsWindow(p: Paged, tokenStart: nat, cells: seq<Score>, upTo: nat)
    requires p.layout.blockSize > 0
  {
    forall c :: 0 <= c < upTo && c < |cells| ==> cells[c] == PagedLogit(p, tokenStart + c)
  }

  /** One cell as the kernels compute it: block rank and offset by division, then blocked sums. */
  method KernelCell(p: Paged, t: nat, blockH: nat, blockD: nat) returns (logit: real)
    requires TableCovers(p, t + 1) && blockH > 0 && blockD > 0
    ensures logit == TokenLogit(p, t)
  {
    hide Logit, Scaled, RawKey, KeyScale;
    TokenInTable(p, t + 1, t);
    DivMod(t, p.layout.blockSize);
    var blockRank := t / p.layout.blockSize;
    var blockOffset := t - blockRank * p.layout.blockSize;
    var blockIdx := p.table[blockRank];
    logit := TritonCell(p.query, RawKey(p, blockIdx, blockOffset), KeyScale(p, blockIdx, blockOffset), blockH, blockD);
  }

  /** _fp8_paged_mqa_logits_rowwise_kernel over a window: a tile that starts past the context is
      filled with -inf and left early; heads go eight at a time. */
  method RowwiseWindow(p: Paged, tokenStart: nat, blockN: nat, logits: array<Score>)
    requires blockN > 0 && TableCovers(p, p.contextLen)
    modifies logits
    ensures HoldsWindow(p, tokenStart, logits[..], logits.Length)
  {
    hide TokenLogit;
    var n := 0;
    while n < logits.Length
      invariant HoldsWindow(p, tokenStart, logits[..], n)
    {
      var end := Least(n + blockN, logits.Length);
      if tokenStart + n >= p.contextLen {
        forall c | n <= c < end { logits[c] := NegInf; }
      } else {
        var c := n;
        while c < end
          invariant n <= c <= end
          invariant HoldsWindow(p, tokenStart, logits[..], c)
        {
          if tokenStart + c < p.contextLen {
            var logit := KernelCell(p, tokenStart + c, 8, 64);
            logits[c] := Fin(logit);
          } else {
            logits[c] := NegInf;
          }
          c := c + 1;
        }
      }
      n := n + blockN;
    }
  }

  /** _fp8_paged_mqa_logits_kernel for one row: no early exit, one head at a time.  It looks every
      window token up in the block table, past the context as well. */
  method TiledWindow(p: Paged, tokenStart: nat, logits: array<Score>)
    requires TableCovers(p, tokenStart + logits.Length) && TableCovers(p, p.contextLen)
    modifies logits
    ensures HoldsWindow(p, tokenStart, logits[..], logits.Length)
  {
    hide TokenLogit;
    var c := 0;
    while c < logits.Length
      invariant 0 <= c <= logits.Length
      invariant HoldsWindow(p, tokenStart, logits[..], c)
    {
      TokenInTable(p, tokenStart + logits.Length, tokenStart + c);
      var blockIdx := p.table[(tokenStart + c) / p.layout.blockSize];
      if tokenStart + c < p.contextLen {
        var logit := KernelCell(p, tokenStart + c, 1, 64);
        logits[c] := Fin(logit);
      } else {
        logits[c] := NegInf;
      }
      c := c + 1;
    }
  }

  /** _fp8_paged_mqa_logits_torch for one row: -inf everywhere, then chunks of tokens up to the context
      length, the keys dequantized before the product. */
  method TorchRow(p: Paged, maxTokensPerChunk: nat, logits: array<Score>)
    requires maxTokensPerChunk > 0 && TableCovers(p, p.contextLen) && p.contextLen <= logits.Length
    modifies logits
    ensures HoldsWindow(p, 0, logits[..], logits.Length)
  {
    hide Logit, Scaled, RawKey, KeyScale;
    forall c | 0 <= c < logits.Length { logits[c] := NegInf; }
    var start := 0;
    while start < p.contextLen
      invariant 0 <= start && (p.contextLen >= 0 ==> start <= p.contextLen) && (p.contextLen < 0 ==> start == 0)
      invariant HoldsWindow(p, 0, logits[..], start)
      invariant forall c :: start <= c < logits.Length ==> logits[c].NegInf?
    {
      var end := if start + maxTokensPerChunk < p.contextLen then start + maxTokensPerChunk else p.contextLen;
      forall t | start <= t < end ensures t / p.layout.blockSize < |p.table| {
        TokenInTable(p, p.contextLen, t);
      }
      forall t | start <= t < end {
        logits[t] := Fin(DequantizedLogit(p, t));
      }
      forall t | start <= t < end ensures DequantizedLogit(p, t) == TokenLogit(p, t) {
        DivMod(t, p.layout.blockSize);
      }
      start := end;
    }
  }

  function DequantizedLogit(p: Paged, t: nat): real
    requires p.layout.blockSize > 0 && t / p.layout.blockSize < |p.table|
  {
    var logicalBlock := t / p.layout.blockSize;
    var physical, inBlock := p.table[logicalBlock], t - logicalBlock * p.layout.blockSize;
    Logit(p.query, Scaled(RawKey(p, physical, inBlock), KeyScale(p, physical, inBlock)))
  }

  /** All three agree on every cell they share, whatever the windows. */
  lemma WindowsAgree(p: Paged, start0: nat, cells0: seq<Score>, start1: nat, cells1: seq<Score>, t: nat)
    requires p.layout.blockSize > 0
    requires HoldsWindow(p, start0, cells0, |cells0|) && HoldsWindow(p, start1, cells1, |cells1|)
    requires start0 <= t < start0 + |cells0| && start1 <= t < start1 + |cells1|
    ensures cells0[t - start0] == cells1[t - start1]
    ensures cells0[t - start0].NegInf? <==> t >= p.contextLen
  {
    assert cells0[t - start0] == PagedLogit(p, start0 + (t - start0));
    assert cells1[t - start1] == PagedLogit(p, start1 + (t - start1));
  }

  /** Windows of consecutive chunks are the slices of one full row, so the streaming top-k over windows
      is the streaming top-k over that row. */
  lemma WindowIsSlice(p: Paged, row: seq<Score>, start: nat, cells: seq<Score>)
    requires p.layout.blockSize > 0 && HoldsWindow(p, 0, row, |row|) && HoldsWindow(p, start, cells, |cells|)
    requires start + |cells| <= |row|
    ensures cells == row[start..start + |cells|]
  {
    forall c | 0 <= c < |cells| ensures cells[c] == row[start + c] {
      WindowsAgree(p, 0, row, start, cells, start + c);
    }
  }
}
