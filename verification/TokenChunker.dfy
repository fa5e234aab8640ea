/** The tokenizer chunker: overlapping windows of tokens, cut at the tokens' character offsets. */
module TokenChunker {
  import opened Prelude
  import opened Chunker

  /** The character span of each token. */
  type Offsets = seq<(nat, nat)>

  predicate Valid(size: int, overlap: int) { size >= 1 && overlap < size }

  /** What an offset mapping is: spans inside the text whose starts and ends never move left. */
  ghost predicate Mapping(text: string, offsets: Offsets) {
    && (forall i :: 0 <= i < |offsets| ==> offsets[i].0 <= offsets[i].1 <= |text|)
    && forall i, j :: 0 <= i < j < |offsets| ==> offsets[i].0 <= offsets[j].0 && offsets[i].1 <= offsets[j].1
  }

  function TokenCut(offsets: Offsets, size: int, start: nat): (end: nat)
    requires size >= 1 && start < |offsets|
    ensures start < end <= |offsets|
  {
    Min(start + size, |offsets|)
  }

  function TokenPiece(text: string, offsets: Offsets, size: int, start: nat, position: nat): RawChunk
    requires size >= 1 && start < |offsets| && Mapping(text, offsets)
  {
    var end := TokenCut(offsets, size, start);
    RawChunk(position, Slice(text, offsets[start].0, offsets[end - 1].1), offsets[start].0, offsets[end - 1].1, end - start)
  }

  /** The chunks of the token windows from `start` on. */
  function TokenChunksFrom(text: string, offsets: Offsets, size: int, overlap: int, start: nat, position: nat): seq<RawChunk>
    requires Valid(size, overlap) && Mapping(text, offsets)
    decreases |offsets| - start
  {
    if start >= |offsets| then []
    else
      var end := TokenCut(offsets, size, start);
      [TokenPiece(text, offsets, size, start, position)]
      + if end == |offsets| then []
        else TokenChunksFrom(text, offsets, size, overlap, Max(end - overlap, start + 1), position + 1)
  }

  lemma TokenChunksUnfold(text: string, offsets: Offsets, size: int, overlap: int, start: nat, position: nat, before: seq<RawChunk>)
    requires Valid(size, overlap) && Mapping(text, offsets) && start < |offsets|
    ensures var end := TokenCut(offsets, size, start);
            before + TokenChunksFrom(text, offsets, size, overlap, start, position)
            == before + [TokenPiece(text, offsets, size, start, position)]
               + if end == |offsets| then []
                 else TokenChunksFrom(text, offsets, size, overlap, Max(end - overlap, start + 1), position + 1)
  {
  }

  lemma NoMoreTokens(text: string, offsets: Offsets, size: int, overlap: int, start: nat, position: nat)
    requires Valid(size, overlap) && Mapping(text, offsets) && start >= |offsets|
    ensures TokenChunksFrom(text, offsets, size, overlap, start, position) == []
  {
  }

  /** The loop of `_chunk_with_tokenizer`. */
  method TokenWindows(text: string, offsets: Offsets, size: int, overlap: int, basePosition: nat) returns (chunks: seq<RawChunk>)
    requires Valid(size, overlap) && Mapping(text, offsets)
    ensures chunks == TokenChunksFrom(text, offsets, size, overlap, 0, basePosition)
  {
    hide TokenChunksFrom;
    chunks := [];
    var start, position := 0, basePosition;
    ghost var whole := TokenChunksFrom(text, offsets, size, overlap, 0, basePosition);
    while start < |offsets|
      invariant whole == chunks + TokenChunksFrom(text, offsets, size, overlap, start, position)
      decreases |offsets| - start
    {
      TokenChunksUnfold(text, offsets, size, overlap, start, position, chunks);
      var end := Min(start + size, |offsets|);
      var charStart, charEnd := offsets[start].0, offsets[end - 1].1;
      chunks := chunks + [RawChunk(position, Slice(text, charStart, charEnd), charStart, charEnd, end - start)];
      if end == |offsets| {
        return;
      }
      start := Max(end - overlap, start + 1);
      position := position + 1;
    }
    NoMoreTokens(text, offsets, size, overlap, start, position);
  }

  /** `_chunk_with_tokenizer`; no mapping is a tokenizer that cannot give one, which falls back to characters. */
  method ChunkWithTokenizer(cfg: Config, text: string, mapping: Option<Offsets>, basePosition: nat)
    returns (chunks: seq<RawChunk>)
    requires cfg.Valid() && (mapping.Some? ==> Mapping(text, mapping.value))
    ensures cfg.Windows().Valid()
    ensures mapping.None? ==> chunks == ChunksFrom(cfg.Windows(), text, 0, basePosition)
    ensures mapping.Some? ==>
              chunks == TokenChunksFrom(text, mapping.value, cfg.tokensPerChunk, cfg.tokenOverlap, 0, basePosition)
  {
    hide ChunksFrom, TokenChunksFrom, Mapping;
    WindowValid(cfg);
    if mapping.None? {
      chunks := ChunkCharProxy(cfg.Windows(), text, basePosition);
    } else {
      chunks := TokenWindows(text, mapping.value, cfg.tokensPerChunk, cfg.tokenOverlap, basePosition);
    }
  }

  // ---------------------------------------------------------------- coverage, exactly

  /** Every character from the first token to the last is in a chunk, also the ones between tokens. */
  ghost predicate CoversTokens(text: string, offsets: Offsets, size: int, overlap: int)
    requires Valid(size, overlap) && Mapping(text, offsets)
  {
    forall o: nat :: offsets != [] && offsets[0].0 <= o < offsets[|offsets| - 1].1 ==>
                       InChunk(TokenChunksFrom(text, offsets, size, overlap, 0, 0), o)
  }

  lemma {:induction false} CoversFrom(text: string, offsets: Offsets, size: int, overlap: int, start: nat, position: nat, o: nat)
    requires Valid(size, overlap) && overlap >= 1 && Mapping(text, offsets)
    requires start < |offsets| && offsets[start].0 <= o < offsets[|offsets| - 1].1
    ensures InChunk(TokenChunksFrom(text, offsets, size, overlap, start, position), o)
    decreases |offsets| - start
  {
    var cs := TokenChunksFrom(text, offsets, size, overlap, start, position);
    var end := TokenCut(offsets, size, start);
    assert cs[0] == TokenPiece(text, offsets, size, start, position);
    if o < offsets[end - 1].1 {
      assert cs[0].startOffset <= o < cs[0].endOffset;
    } else {
      var next := Max(end - overlap, start + 1);
      assert next <= end - 1;
      CoversFrom(text, offsets, size, overlap, next, position + 1, o);
      var rest := TokenChunksFrom(text, offsets, size, overlap, next, position + 1);
      assert cs == [cs[0]] + rest;
      var i :| 0 <= i < |rest| && rest[i].startOffset <= o < rest[i].endOffset;
      assert cs[i + 1] == rest[i];
    }
  }

  /** One token more than a window holds, with a character between any two tokens. */
  function Spaced(n: nat): (offsets: Offsets)
    ensures |offsets| == n && forall i :: 0 <= i < n ==> offsets[i] == (2 * i, 2 * i + 1)
  {
    seq(n, i requires 0 <= i < n => (2 * i, 2 * i + 1))
  }

  lemma NoOverlapGap(size: int, overlap: int, text: string)
    requires Valid(size, overlap) && overlap <= 0 && |text| == 2 * size + 2
    ensures Mapping(text, Spaced(size + 1)) && !CoversTokens(text, Spaced(size + 1), size, overlap)
  {
    var offsets := Spaced(size + 1);
    var o := 2 * size - 1;
    var cs := TokenChunksFrom(text, offsets, size, overlap, 0, 0);
    var next := Max(size - overlap, 1);
    var rest := TokenChunksFrom(text, offsets, size, overlap, next, 1);
    assert TokenCut(offsets, size, 0) == size;
    assert cs == [TokenPiece(text, offsets, size, 0, 0)] + rest;
    if next < |offsets| {
      assert rest == [TokenPiece(text, offsets, size, next, 1)];
    }
    assert !InChunk(cs, o);
    assert offsets[0].0 <= o < offsets[|offsets| - 1].1;
  }

  /** For every text and offset mapping nothing between the first and the last token is lost
      if and only if neighbouring windows share at least one token. */
  lemma TokenCoverageExact(size: int, overlap: int)
    requires Valid(size, overlap)
    ensures (forall text: string, offsets: Offsets :: Mapping(text, offsets) ==> CoversTokens(text, offsets, size, overlap)) <==> overlap >= 1
  {
    if overlap >= 1 {
      forall text: string, offsets: Offsets | Mapping(text, offsets) ensures CoversTokens(text, offsets, size, overlap) {
        forall o: nat | offsets != [] && offsets[0].0 <= o < offsets[|offsets| - 1].1
          ensures InChunk(TokenChunksFrom(text, offsets, size, overlap, 0, 0), o)
        {
          CoversFrom(text, offsets, size, overlap, 0, 0, o);
        }
      }
    } else {
      var text := seq(2 * size + 2, _ => 'x');
      NoOverlapGap(size, overlap, text);
    }
  }

  // ---------------------------------------------------------------- how many, exactly

  /** How many tokens `advances` windows past the first reach. */
  function Reach(advances: int, stride: int, size: int): int { advances * stride + size }

  lemma ReachStep(advances: int, stride: int, size: int)
    ensures Reach(advances + 1, stride, size) == Reach(advances, stride, size) + stride
    ensures Reach(0, stride, size) == size
  {
  }

  /** The number of chunks is the least that reaches the last token, advancing by size minus overlap each time. */
  lemma {:induction false} TokenChunkCountExact(text: string, offsets: Offsets, size: int, overlap: int, start: nat, position: nat)
    requires Valid(size, overlap) && overlap >= 0 && Mapping(text, offsets) && start < |offsets|
    ensures var c := |TokenChunksFrom(text, offsets, size, overlap, start, position)|;
            && c >= 1
            && |offsets| - start <= Reach(c - 1, size - overlap, size)
            && (c > 1 ==> Reach(c - 2, size - overlap, size) < |offsets| - start)
    decreases |offsets| - start
  {
    hide Reach, Mapping, TokenPiece;
    var end, stride := TokenCut(offsets, size, start), size - overlap;
    if end == |offsets| {
      ReachStep(0, stride, size);
    } else {
      assert Max(end - overlap, start + 1) == start + stride;
      TokenChunkCountExact(text, offsets, size, overlap, start + stride, position + 1);
      var c := |TokenChunksFrom(text, offsets, size, overlap, start + stride, position + 1)|;
      assert |TokenChunksFrom(text, offsets, size, overlap, start, position)| == 1 + c;
      hide TokenChunksFrom;
      ReachStep(c - 1, stride, size);
      ReachStep(c - 2, stride, size);
      ReachStep(0, stride, size);
    }
  }

  // ---------------------------------------------------------------- every chunk, in any configuration

  /** The token window `i` starts at. */
  function WindowStart(start: int, i: int, stride: int): int { start + i * stride }

  lemma WindowStep(start: int, i: int, stride: int)
    ensures WindowStart(start, i, stride) == WindowStart(start + stride, i - 1, stride)
    ensures WindowStart(start, 0, stride) == start
  {
  }

  /** The chunk of the tokens from `a` on: as many as fit and are there, and the text from the first character of the first
      to the last character of the last. */
  ghost predicate HoldsTokens(text: string, offsets: Offsets, size: int, c: RawChunk, a: int) {
    var b := Min(a + size, |offsets|);
    && 0 <= a < b && offsets[a].0 == c.startOffset && offsets[b - 1].1 == c.endOffset
    && c.tokenCount == b - a
    && c.startOffset <= c.endOffset <= |text| && c.text == text[c.startOffset..c.endOffset]
  }

  lemma FirstWindow(text: string, offsets: Offsets, size: int, start: nat, position: nat)
    requires size >= 1 && start < |offsets| && Mapping(text, offsets)
    ensures HoldsTokens(text, offsets, size, TokenPiece(text, offsets, size, start, position), start)
    ensures TokenPiece(text, offsets, size, start, position).position == position
  {
  }

  /** Window `i` starts `size - overlap` tokens behind the one before, and holds its tokens. */
  lemma {:induction false} TokenChunksExact(text: string, offsets: Offsets, size: int, overlap: int, start: nat, position: nat,
                                            i: nat)
    requires Valid(size, overlap) && Mapping(text, offsets) && i < |TokenChunksFrom(text, offsets, size, overlap, start, position)|
    ensures var c := TokenChunksFrom(text, offsets, size, overlap, start, position)[i];
            c.position == position + i && HoldsTokens(text, offsets, size, c, WindowStart(start, i, size - overlap))
    decreases i
  {
    hide Mapping, HoldsTokens, WindowStart, TokenPiece;
    WindowStep(start, i, size - overlap);
    FirstWindow(text, offsets, size, start, position);
    if i > 0 {
      var end := TokenCut(offsets, size, start);
      assert Max(end - overlap, start + 1) == start + (size - overlap);
      TokenChunksExact(text, offsets, size, overlap, start + (size - overlap), position + 1, i - 1);
    }
  }
}
