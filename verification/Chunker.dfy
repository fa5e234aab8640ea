/** The char-proxy chunker: overlapping windows whose right edge may walk back to a sentence end. */
module Chunker {
  import opened Prelude

  /** The fields of a constructed `Chunker`. */
  datatype Config = Config(tokensPerChunk: int, tokenOverlap: int, charsPerToken: int,
                           respectSentences: bool, sentenceSlack: int)
  {
    /** What the constructor checks, plus a positive characters-per-token ratio. */
    predicate Valid() {
      tokensPerChunk >= 1 && tokenOverlap < tokensPerChunk && charsPerToken >= 1
    }

    /** The character sizes a run computes first. */
    function Windows(): Window {
      Window(tokensPerChunk * charsPerToken, tokenOverlap * charsPerToken, charsPerToken,
             respectSentences, sentenceSlack)
    }
  }

  /** The constructor with its defaults; `None` is the `ValueError` exit. */
  function Make(tokensPerChunk: int, tokenOverlap: Option<int>, charsPerToken: int,
                respectSentences: bool, sentenceSlack: Option<int>): Option<Config>
  {
    if tokensPerChunk < 1 then None
    else
      var overlap := match tokenOverlap
        case Some(o) => o
        case None => Max(tokensPerChunk / 10, 1);
      if overlap >= tokensPerChunk then None
      else
        var slack := match sentenceSlack
          case Some(s) => s
          case None => Max(tokensPerChunk * charsPerToken / 20, 32);
        Some(Config(tokensPerChunk, overlap, charsPerToken, respectSentences, slack))
  }

  /** Window sizes in characters. */
  datatype Window = Window(size: int, overlap: int, charsPerToken: int, respect: bool, slack: int)
  {
    predicate Valid() { size >= 1 && overlap < size && charsPerToken >= 1 }

    /** The exact condition under which no character can fall between two chunks. */
    predicate Gapless() { overlap >= 0 && (respect ==> slack <= size + 1) }

    /** How far every window after the first is guaranteed to advance. */
    function Stride(): int { size - overlap - (if respect then Max(slack, 0) else 0) }
  }

  lemma MulAtMost(a: int, b: int, c: int)
    requires a <= b && 0 <= c
    ensures a * c <= b * c
  {
    assert 0 <= (b - a) * c;
  }

  lemma WindowValid(cfg: Config)
    requires cfg.Valid()
    ensures cfg.Windows().Valid()
  {
    MulAtMost(1, cfg.tokensPerChunk, cfg.charsPerToken);
    MulAtMost(cfg.tokenOverlap + 1, cfg.tokensPerChunk, cfg.charsPerToken);
  }

  datatype RawChunk = RawChunk(position: nat, text: string, startOffset: nat, endOffset: nat, tokenCount: nat)

  predicate IsSpace(c: char) {
    var u := c as int;
    0x09 <= u <= 0x0D || 0x1C <= u <= 0x20 || u == 0x85 || u == 0xA0 || u == 0x1680
    || 0x2000 <= u <= 0x200A || u == 0x2028 || u == 0x2029 || u == 0x202F || u == 0x205F || u == 0x3000
  }

  /** `text[p - 2 .. p]` is a terminator followed by white space. */
  predicate SentenceEndsAt(text: string, p: int) {
    2 <= p <= |text| && text[p - 2] in {'.', '!', '?'} && IsSpace(text[p - 1])
  }

  /** The last sentence end in `text[lo..end]`, scanning down from `p`. */
  function LastSentenceEnd(text: string, lo: nat, p: nat): (r: Option<nat>)
    requires p <= |text|
    ensures r.Some? ==> lo + 2 <= r.value <= p && SentenceEndsAt(text, r.value)
    ensures forall q :: lo + 2 <= q <= p && SentenceEndsAt(text, q) ==> r.Some? && q <= r.value
  {
    if p < lo + 2 then None
    else if SentenceEndsAt(text, p) then Some(p)
    else LastSentenceEnd(text, lo, p - 1)
  }

  function WalkToSentenceEnd(text: string, end: nat, slack: int): (r: nat)
    requires end <= |text|
    ensures r <= end
    ensures r < end ==> r >= Max(end - slack, 0) + 2
  {
    var lo := Max(end - slack, 0);
    match LastSentenceEnd(text, lo, end)
    case Some(p) => p
    case None => end
  }

  /** Where the window that starts at `start` ends. */
  function Cut(w: Window, text: string, start: nat): (r: nat)
    requires w.Valid() && start < |text|
    ensures r <= Min(start + w.size, |text|)
  {
    var end := Min(start + w.size, |text|);
    if w.respect && end < |text| then WalkToSentenceEnd(text, end, w.slack) else end
  }

  function Next(w: Window, start: nat, end: nat): (r: nat)
    ensures r > start
  {
    Max(end - w.overlap, start + 1)
  }

  /** A Python slice: empty when the bounds cross. */
  function Slice(text: string, a: nat, b: nat): string
    requires b <= |text|
  {
    if a <= b then text[a..b] else []
  }

  /** Token estimate of a piece; never zero. */
  function TokenCount(chars: nat, charsPerToken: int): (r: nat)
    requires charsPerToken >= 1
    ensures r >= 1
  {
    Max(chars / charsPerToken, 1)
  }

  /** The estimate is how many whole tokens fit into the characters, but at least one. */
  lemma TokenCountMeans(chars: nat, charsPerToken: int)
    requires charsPerToken >= 1
    ensures var r := TokenCount(chars, charsPerToken);
            if chars < charsPerToken then r == 1 else r * charsPerToken <= chars < (r + 1) * charsPerToken
  {
    var q := chars / charsPerToken;
    assert chars == q * charsPerToken + chars % charsPerToken;
    if chars >= charsPerToken {
      assert q >= 1;
    }
  }

  function Piece(w: Window, text: string, start: nat, position: nat): RawChunk
    requires w.Valid() && start < |text|
  {
    var end := Cut(w, text, start);
    var piece := Slice(text, start, end);
    RawChunk(position, piece, start, end, TokenCount(|piece|, w.charsPerToken))
  }

  /** The chunks of the windows from `start` on. */
  function ChunksFrom(w: Window, text: string, start: nat, position: nat): seq<RawChunk>
    requires w.Valid()
    decreases |text| - start
  {
    if start >= |text| then []
    else
      var end := Cut(w, text, start);
      [Piece(w, text, start, position)]
      + if end == |text| then [] else ChunksFrom(w, text, Next(w, start, end), position + 1)
  }

  function Chunks(w: Window, text: string): seq<RawChunk>
    requires w.Valid()
  {
    ChunksFrom(w, text, 0, 0)
  }

  /** One turn of the loop moves a chunk from the windows to come to the chunks already cut. */
  lemma ChunksUnfold(w: Window, text: string, start: nat, position: nat, before: seq<RawChunk>)
    requires w.Valid() && start < |text|
    ensures var end := Cut(w, text, start);
            before + ChunksFrom(w, text, start, position)
            == before + [Piece(w, text, start, position)]
               + if end == |text| then [] else ChunksFrom(w, text, Next(w, start, end), position + 1)
  {
  }

  /** `_chunk_char_proxy` as the loop it is. */
  method ChunkCharProxy(w: Window, text: string, basePosition: nat) returns (chunks: seq<RawChunk>)
    requires w.Valid()
    ensures chunks == ChunksFrom(w, text, 0, basePosition)
  {
    hide TokenCount, LastSentenceEnd;
    chunks := [];
    var start, position := 0, basePosition;
    while start < |text|
      invariant chunks + ChunksFrom(w, text, start, position) == ChunksFrom(w, text, 0, basePosition)
      decreases |text| - start
    {
      var end := Min(start + w.size, |text|);
      if w.respect && end < |text| {
        end := WalkToSentenceEnd(text, end, w.slack);
      }
      var piece := Slice(text, start, end);
      var chunk := RawChunk(position, piece, start, end, TokenCount(|piece|, w.charsPerToken));
      assert end == Cut(w, text, start);
      ChunksUnfold(w, text, start, position, chunks);
      chunks := chunks + [chunk];
      if end == |text| {
        break;
      }
      start := Next(w, start, end);
      position := position + 1;
    }
  }

  /** `chunk_many`: each document is chunked with the running count as its base position. */
  method ChunkMany(w: Window, texts: seq<string>) returns (out: seq<RawChunk>)
    requires w.Valid()
    ensures forall i :: 0 <= i < |out| ==> out[i].position == i
    ensures out == ChunksOfAll(w, texts)
  {
    out := [];
    for k := 0 to |texts|
      invariant forall i :: 0 <= i < |out| ==> out[i].position == i
      invariant out == ChunksOfAll(w, texts[..k])
    {
      var more := ChunkCharProxy(w, texts[k], |out|);
      PositionsCount(w, texts[k], 0, |out|);
      assert texts[..k + 1][..k] == texts[..k];
      out := out + more;
    }
    assert texts[..|texts|] == texts;
  }

  function ChunksOfAll(w: Window, texts: seq<string>): seq<RawChunk>
    requires w.Valid()
  {
    if texts == [] then []
    else
      var before := ChunksOfAll(w, texts[..|texts| - 1]);
      before + ChunksFrom(w, texts[|texts| - 1], 0, |before|)
  }

  // ---------------------------------------------------------------- shape of one run

  /** Positions count up by one from the base, whatever the configuration. */
  lemma {:induction false} PositionsCount(w: Window, text: string, start: nat, position: nat)
    requires w.Valid()
    ensures forall i :: 0 <= i < |ChunksFrom(w, text, start, position)| ==>
              ChunksFrom(w, text, start, position)[i].position == position + i
    decreases |text| - start
  {
    if start < |text| && Cut(w, text, start) != |text| {
      PositionsCount(w, text, Next(w, start, Cut(w, text, start)), position + 1);
    }
  }

  /** The chunks of document `k` stand together in the list, after those of all before, and are those of the document by
      itself with positions that run on. */
  lemma {:induction false} DocumentChunks(w: Window, texts: seq<string>, k: nat) returns (base: nat)
    requires w.Valid() && k < |texts|
    ensures base == |ChunksOfAll(w, texts[..k])|
    ensures base + |Chunks(w, texts[k])| == |ChunksOfAll(w, texts[..k + 1])| <= |ChunksOfAll(w, texts)|
    ensures forall j :: 0 <= j < |Chunks(w, texts[k])| ==>
              ChunksOfAll(w, texts)[base + j] == Chunks(w, texts[k])[j].(position := base + j)
    decreases |texts|
  {
    hide ChunksFrom, ChunksOfAll;
    var n := |texts| - 1;
    ShiftedChunks(w, texts[n], 0, 0, |ChunksOfAll(w, texts[..n])|);
    LastDocument(w, texts);
    if k < n {
      base := DocumentChunks(w, texts[..n], k);
      assert texts[..n][..k] == texts[..k] && texts[..n][..k + 1] == texts[..k + 1];
      var before := ChunksOfAll(w, texts[..n]);
      assert forall j :: 0 <= j < |before| ==> ChunksOfAll(w, texts)[j] == before[j];
    } else {
      base := |ChunksOfAll(w, texts[..n])|;
      assert texts[..k + 1] == texts;
    }
  }

  lemma LastDocument(w: Window, texts: seq<string>)
    requires w.Valid() && texts != []
    ensures var before := ChunksOfAll(w, texts[..|texts| - 1]);
            ChunksOfAll(w, texts) == before + ChunksFrom(w, texts[|texts| - 1], 0, |before|)
  {
  }

  /** The base shifts the positions and nothing else. */
  lemma {:induction false} ShiftedChunks(w: Window, text: string, start: nat, position: nat, base: nat)
    requires w.Valid()
    ensures var a, b := ChunksFrom(w, text, start, position), ChunksFrom(w, text, start, base);
            |a| == |b| && forall j :: 0 <= j < |a| ==> b[j] == a[j].(position := base + j)
    decreases |text| - start
  {
    hide Cut, TokenCount;
    if start < |text| && Cut(w, text, start) != |text| {
      ShiftedChunks(w, text, Next(w, start, Cut(w, text, start)), position + 1, base + 1);
    }
  }

  /** The constructor refuses a chunk of no tokens and an overlap as long as the chunk, which the default overlap is for a
      single token; by default the overlap is a tenth of the chunk, at least one token, and the slack a twentieth of its
      characters, at least 32. */
  lemma DefaultsExact(tokensPerChunk: int, charsPerToken: int, respect: bool)
    requires charsPerToken >= 1
    ensures var made := Make(tokensPerChunk, None, charsPerToken, respect, None);
            && (made.Some? <==> tokensPerChunk >= 2)
            && (made.Some? ==>
                  var overlap, slack := made.value.tokenOverlap, made.value.sentenceSlack;
                  && (if tokensPerChunk < 10 then overlap == 1 else overlap * 10 <= tokensPerChunk < (overlap + 1) * 10)
                  && (if tokensPerChunk * charsPerToken < 640 then slack == 32
                      else slack * 20 <= tokensPerChunk * charsPerToken < (slack + 1) * 20))
    ensures forall o, s :: var made := Make(tokensPerChunk, Some(o), charsPerToken, respect, Some(s));
              if tokensPerChunk < 1 || o >= tokensPerChunk then made == None
              else made == Some(Config(tokensPerChunk, o, charsPerToken, respect, s)) && made.value.Valid()
  {
    var n, size := tokensPerChunk, tokensPerChunk * charsPerToken;
    assert n == n / 10 * 10 + n % 10 && size == size / 20 * 20 + size % 20;
  }

  // ---------------------------------------------------------------- every chunk, in any configuration

  /** `p` is a sentence end the window with this proposed edge may walk back to. */
  predicate InReach(w: Window, text: string, edge: int, p: int) {
    Max(edge - w.slack, 0) + 2 <= p <= edge && SentenceEndsAt(text, p)
  }

  /** A window that would end inside the text ends at the last sentence end in reach, if sentences are respected and there
      is one, and where it would otherwise; the last window ends with the text. */
  ghost predicate EndsRight(w: Window, text: string, c: RawChunk) {
    var edge := c.startOffset + w.size;
    if edge >= |text| then c.endOffset == |text|
    else if w.respect && exists p :: InReach(w, text, edge, p) then
      InReach(w, text, edge, c.endOffset) && forall p :: InReach(w, text, edge, p) ==> p <= c.endOffset
    else c.endOffset == edge
  }

  /** The text of the chunk is what its offsets say, and its token count how many whole tokens fit, but at least one. */
  ghost predicate HoldsText(w: Window, text: string, c: RawChunk) {
    && c.endOffset <= |text|
    && c.text == (if c.startOffset <= c.endOffset then text[c.startOffset..c.endOffset] else [])
    && if |c.text| < w.charsPerToken then c.tokenCount == 1
       else c.tokenCount * w.charsPerToken <= |c.text| < (c.tokenCount + 1) * w.charsPerToken
  }

  /** The next chunk repeats exactly the overlap, unless it would not move on then. */
  predicate Follows(w: Window, c: RawChunk, next: RawChunk) {
    if c.endOffset - w.overlap > c.startOffset then c.endOffset - next.startOffset == w.overlap
    else next.startOffset == c.startOffset + 1
  }

  /** The chunk ends with the text, or the next one would start behind it. */
  predicate UsesUp(w: Window, text: string, last: RawChunk) {
    last.endOffset == |text| || Max(last.endOffset - w.overlap, last.startOffset + 1) >= |text|
  }

  /** Each chunk by itself, the first start, the overlaps, and that the chunks stop only where the text is used up. */
  ghost predicate WellCut(w: Window, text: string, cs: seq<RawChunk>, start: nat) {
    && (start < |text| <==> cs != [])
    && (cs != [] ==> cs[0].startOffset == start)
    && (forall c :: c in cs ==> c.startOffset < |text| && EndsRight(w, text, c) && HoldsText(w, text, c))
    && (forall i :: 0 < i < |cs| ==> Follows(w, cs[i - 1], cs[i]))
    && (forall i :: 0 <= i < |cs| - 1 ==> cs[i].endOffset != |text|)
    && (cs != [] ==> UsesUp(w, text, cs[|cs| - 1]))
  }

  lemma PieceIsRight(w: Window, text: string, start: nat, position: nat)
    requires w.Valid() && start < |text|
    ensures EndsRight(w, text, Piece(w, text, start, position)) && HoldsText(w, text, Piece(w, text, start, position))
  {
    var c := Piece(w, text, start, position);
    TokenCountMeans(|c.text|, w.charsPerToken);
    hide TokenCount, SentenceEndsAt;
    var edge := start + w.size;
    if edge < |text| && w.respect {
      var lo: nat := Max(edge - w.slack, 0);
      var last := LastSentenceEnd(text, lo, edge);
      assert last.Some? ==> InReach(w, text, edge, last.value);
    }
  }

  /** What every run of the chunker cuts, gapless or not. */
  lemma {:induction false} ChunksExact(w: Window, text: string, start: nat, position: nat)
    requires w.Valid()
    ensures WellCut(w, text, ChunksFrom(w, text, start, position), start)
    decreases |text| - start
  {
    if start < |text| {
      PieceIsRight(w, text, start, position);
      var first, end := Piece(w, text, start, position), Cut(w, text, start);
      var cs := ChunksFrom(w, text, start, position);
      if end == |text| {
        assert cs == [first];
      } else {
        var next := Next(w, start, end);
        var rest := ChunksFrom(w, text, next, position + 1);
        ChunksExact(w, text, next, position + 1);
        assert cs == [first] + rest;
        WellCutCons(w, text, first, rest, next);
      }
    }
  }

  /** In a configured chunker a token is `charsPerToken` characters, for the window as for the overlap. */
  lemma ConfiguredChunks(cfg: Config, text: string)
    requires cfg.Valid()
    ensures cfg.Windows().Valid()
    ensures var w := Window(cfg.tokensPerChunk * cfg.charsPerToken, cfg.tokenOverlap * cfg.charsPerToken, cfg.charsPerToken,
                            cfg.respectSentences, cfg.sentenceSlack);
            WellCut(w, text, Chunks(cfg.Windows(), text), 0)
  {
    WindowValid(cfg);
    ChunksExact(cfg.Windows(), text, 0, 0);
  }

  lemma WellCutCons(w: Window, text: string, first: RawChunk, rest: seq<RawChunk>, next: nat)
    requires WellCut(w, text, rest, next) && next == Max(first.endOffset - w.overlap, first.startOffset + 1)
    requires first.startOffset < |text| && first.endOffset != |text| && EndsRight(w, text, first) && HoldsText(w, text, first)
    ensures WellCut(w, text, [first] + rest, first.startOffset)
  {
    hide EndsRight, HoldsText, Follows, UsesUp;
    var cs := [first] + rest;
    assert forall i :: 0 < i < |cs| ==> cs[i] == rest[i - 1];
    if rest != [] {
      assert Follows(w, first, rest[0]) by {
        FollowsNext(w, first, rest[0]);
      }
      assert cs[|cs| - 1] == rest[|rest| - 1];
    } else {
      assert UsesUp(w, text, first) by {
        StopsAtEnd(w, text, first, next);
      }
    }
    forall i | 0 < i < |cs| ensures Follows(w, cs[i - 1], cs[i]) {
      if i > 1 {
        assert cs[i - 1] == rest[i - 2];
      }
    }
  }

  lemma FollowsNext(w: Window, c: RawChunk, next: RawChunk)
    requires next.startOffset == Max(c.endOffset - w.overlap, c.startOffset + 1)
    ensures Follows(w, c, next)
  {
  }

  lemma StopsAtEnd(w: Window, text: string, c: RawChunk, next: nat)
    requires next == Max(c.endOffset - w.overlap, c.startOffset + 1) && next >= |text|
    ensures UsesUp(w, text, c)
  {
  }

  /** A gapless configuration cuts a non-empty window. */
  lemma CutAdvances(w: Window, text: string, start: nat)
    requires w.Valid() && w.Gapless() && start < |text|
    ensures start < Cut(w, text, start)
  {
  }

  /** Right edges never move left from one window to the next, in any configuration. */
  lemma CutsMonotone(w: Window, text: string, start: nat)
    requires w.Valid() && start < |text|
    requires Cut(w, text, start) < |text|
    requires Next(w, start, Cut(w, text, start)) < |text|
    ensures Cut(w, text, start) <= Cut(w, text, Next(w, start, Cut(w, text, start)))
  {
    var e := Cut(w, text, start);
    var start' := Next(w, start, e);
    var e' := Cut(w, text, start');
    var proposed' := Min(start' + w.size, |text|);
    assert e <= proposed';
  }

  /** The tiling facts of a chunk list that starts at `start`. */
  ghost predicate Tiles(text: string, cs: seq<RawChunk>, start: nat, size: int) {
    && |cs| >= 1
    && cs[0].startOffset == start
    && cs[|cs| - 1].endOffset == |text|
    && (forall i :: 0 <= i < |cs| ==>
          && cs[i].startOffset < cs[i].endOffset <= |text|
          && cs[i].endOffset - cs[i].startOffset <= size
          && cs[i].text == text[cs[i].startOffset..cs[i].endOffset])
    && (forall i :: 0 < i < |cs| ==>
          && cs[i - 1].startOffset < cs[i].startOffset <= cs[i - 1].endOffset
          && cs[i - 1].endOffset <= cs[i].endOffset)
  }

  lemma TilesCons(text: string, first: RawChunk, rest: seq<RawChunk>, size: int)
    requires |rest| >= 1 && Tiles(text, rest, rest[0].startOffset, size)
    requires first.startOffset < rest[0].startOffset <= first.endOffset <= rest[0].endOffset
    requires first.endOffset <= |text| && first.endOffset - first.startOffset <= size
    requires first.text == text[first.startOffset..first.endOffset]
    ensures Tiles(text, [first] + rest, first.startOffset, size)
  {
    var cs := [first] + rest;
    assert forall i :: 0 < i < |cs| ==> cs[i] == rest[i - 1];
    forall i | 1 < i < |cs|
      ensures cs[i - 1].startOffset < cs[i].startOffset <= cs[i - 1].endOffset <= cs[i].endOffset
    {
      assert cs[i] == rest[i - 1] && cs[i - 1] == rest[i - 2];
    }
  }

  lemma {:induction false} ChunksFromTile(w: Window, text: string, start: nat, position: nat)
    requires w.Valid() && w.Gapless() && start < |text|
    ensures Tiles(text, ChunksFrom(w, text, start, position), start, w.size)
    decreases |text| - start
  {
    var end := Cut(w, text, start);
    CutAdvances(w, text, start);
    if end != |text| {
      var next := Next(w, start, end);
      ChunksFromTile(w, text, next, position + 1);
      CutsMonotone(w, text, start);
      var rest := ChunksFrom(w, text, next, position + 1);
      assert rest[0] == Piece(w, text, next, position + 1);
      TilesCons(text, Piece(w, text, start, position), rest, w.size);
    }
  }

  /** Chunking a non-empty text tiles it: non-empty slices, increasing starts, no gap, end to end. */
  lemma ChunksTile(w: Window, text: string)
    requires w.Valid() && w.Gapless() && text != []
    ensures Tiles(text, Chunks(w, text), 0, w.size)
  {
    ChunksFromTile(w, text, 0, 0);
  }

  // ---------------------------------------------------------------- coverage, exactly

  ghost predicate InChunk(cs: seq<RawChunk>, offset: nat) {
    exists i :: 0 <= i < |cs| && cs[i].startOffset <= offset < cs[i].endOffset
  }

  ghost predicate CoversText(w: Window, text: string)
    requires w.Valid()
  {
    forall o: nat :: o < |text| ==> InChunk(Chunks(w, text), o)
  }

  lemma {:induction false} TilesCover(text: string, cs: seq<RawChunk>, start: nat, size: int, offset: nat)
    requires Tiles(text, cs, start, size) && start <= offset < |text|
    ensures InChunk(cs, offset)
    decreases |cs|
  {
    if offset < cs[0].endOffset {
      assert cs[0].startOffset <= offset < cs[0].endOffset;
    } else {
      var rest := cs[1..];
      assert rest[|rest| - 1] == cs[|cs| - 1];
      TilesCover(text, rest, rest[0].startOffset, size, offset);
      var i :| 0 <= i < |rest| && rest[i].startOffset <= offset < rest[i].endOffset;
      assert cs[i + 1] == rest[i];
    }
  }

  /** With a negative overlap the window jumps past the character after the first cut. */
  lemma NegativeOverlapGap(w: Window)
    requires w.Valid() && w.overlap < 0
    ensures exists text :: !CoversText(w, text)
  {
    var n := w.size + 1;
    var text := seq(n, _ => 'a');
    var cs := Chunks(w, text);
    assert Cut(w, text, 0) == n - 1;
    assert Next(w, 0, n - 1) >= n;
    assert ChunksFrom(w, text, Next(w, 0, n - 1), 1) == [];
    assert cs == [Piece(w, text, 0, 0)] + [];
    assert !InChunk(cs, n - 1);
    assert !CoversText(w, text);
  }

  /** The text that shows the gap: one sentence end right at the start, then no other. */
  function EarlyStop(w: Window): string
    requires w.Valid()
  {
    ['.', ' '] + seq(w.size + 1, _ => 'a')
  }

  /** With too much slack, every early window whose reach includes the sentence end stops there. */
  lemma EarlyCut(w: Window, s: nat)
    requires w.Valid() && w.respect && w.slack > w.size + 1 && s <= 2
    ensures Cut(w, EarlyStop(w), s) == if s + w.size >= 2 then 2 else s + w.size
  {
    var text := EarlyStop(w);
    assert forall k :: 0 < k < |text| ==> text[k] in {' ', 'a'};
    assert SentenceEndsAt(text, 2);
    var end := s + w.size;
    var last := LastSentenceEnd(text, 0, end);
    assert last.Some? ==> last.value == 2 by {
      if last.Some? {
        assert text[last.value - 2] in {'.', '!', '?'};
      }
    }
  }

  /** From the sentence end on, the window walks back to nothing and the next one starts a character later. */
  lemma EmptyWindow(w: Window, position: nat)
    requires w.Valid() && w.overlap >= 0 && w.respect && w.slack > w.size + 1
    ensures forall c :: c in ChunksFrom(w, EarlyStop(w), 2, position) ==> c.startOffset > 2 || c.endOffset <= 2
  {
    var text := EarlyStop(w);
    EarlyCut(w, 2);
    assert Next(w, 2, 2) == 3;
    StartsAtLeast(w, text, 3, position + 1);
    assert ChunksFrom(w, text, 2, position) == [Piece(w, text, 2, position)] + ChunksFrom(w, text, 3, position + 1);
  }

  /** With too much slack the second or third window walks back to nothing and a character is lost. */
  lemma ExcessSlackGap(w: Window)
    requires w.Valid() && w.overlap >= 0 && w.respect && w.slack > w.size + 1
    ensures exists text :: !CoversText(w, text)
  {
    hide TokenCount, LastSentenceEnd, Cut;
    var text := EarlyStop(w);
    EarlyCut(w, 0);
    EarlyCut(w, 1);
    EmptyWindow(w, 1);
    EmptyWindow(w, 2);
    var cs := Chunks(w, text);
    if w.size >= 2 && w.overlap == 0 {
      assert cs == [Piece(w, text, 0, 0)] + ChunksFrom(w, text, 2, 1);
    } else {
      assert Next(w, 0, Cut(w, text, 0)) == 1;
      assert cs == [Piece(w, text, 0, 0)] + ChunksFrom(w, text, 1, 1);
      assert Next(w, 1, 2) == 2;
      assert ChunksFrom(w, text, 1, 1) == [Piece(w, text, 1, 1)] + ChunksFrom(w, text, 2, 2);
    }
    forall i | 0 <= i < |cs| ensures !(cs[i].startOffset <= 2 < cs[i].endOffset) {
      assert cs[i] in cs;
    }
    assert !InChunk(cs, 2);
    assert !CoversText(w, text);
  }

  lemma {:induction false} StartsAtLeast(w: Window, text: string, start: nat, position: nat)
    requires w.Valid()
    ensures forall c :: c in ChunksFrom(w, text, start, position) ==> c.startOffset >= start
    decreases |text| - start
  {
    if start < |text| && Cut(w, text, start) != |text| {
      StartsAtLeast(w, text, Next(w, start, Cut(w, text, start)), position + 1);
    }
  }

  /** Every text is covered if and only if the configuration is gapless. */
  lemma CoverageExact(w: Window)
    requires w.Valid()
    ensures (forall text :: CoversText(w, text)) <==> w.Gapless()
  {
    if w.Gapless() {
      forall text, o: nat | o < |text| ensures InChunk(Chunks(w, text), o) {
        ChunksTile(w, text);
        TilesCover(text, Chunks(w, text), 0, w.size, o);
      }
    } else if w.overlap < 0 {
      NegativeOverlapGap(w);
    } else {
      ExcessSlackGap(w);
    }
  }

  /** The defaults are gapless exactly when a chunk holds at least 31 characters. */
  lemma DefaultsGapless(tokensPerChunk: int, charsPerToken: int)
    requires charsPerToken >= 1
    requires Make(tokensPerChunk, None, charsPerToken, true, None).Some?
    ensures var cfg := Make(tokensPerChunk, None, charsPerToken, true, None).value;
            && cfg.Valid() && cfg.Windows().Valid()
            && (cfg.Windows().Gapless() <==> tokensPerChunk * charsPerToken >= 31)
  {
    var cfg := Make(tokensPerChunk, None, charsPerToken, true, None).value;
    WindowValid(cfg);
    MulAtMost(0, cfg.tokenOverlap, charsPerToken);
  }

  // ---------------------------------------------------------------- reconstruction

  /** Joins the chunks, dropping from each the part its predecessor already gave. */
  function Rebuild(cs: seq<RawChunk>): string
    requires forall i :: 0 < i < |cs| ==>
               0 <= cs[i - 1].endOffset - cs[i].startOffset <= |cs[i].text|
  {
    if cs == [] then []
    else
      var k := |cs| - 1;
      var seen := if k == 0 then 0 else cs[k - 1].endOffset - cs[k].startOffset;
      Rebuild(cs[..k]) + cs[k].text[seen..]
  }

  lemma {:induction false} RebuildPrefix(text: string, cs: seq<RawChunk>, size: int, k: nat)
    requires Tiles(text, cs, 0, size) && 1 <= k <= |cs|
    ensures Rebuild(cs[..k]) == text[..cs[k - 1].endOffset]
    decreases k
  {
    if k > 1 {
      RebuildPrefix(text, cs, size, k - 1);
      assert cs[..k][..k - 1] == cs[..k - 1];
    } else {
      assert cs[..1][..0] == [];
    }
  }

  /** Dropping the overlaps rebuilds the text exactly. */
  lemma ChunksRebuildText(w: Window, text: string)
    requires w.Valid() && w.Gapless() && text != []
    ensures Tiles(text, Chunks(w, text), 0, w.size)
    ensures Rebuild(Chunks(w, text)) == text
  {
    ChunksTile(w, text);
    var cs := Chunks(w, text);
    RebuildPrefix(text, cs, w.size, |cs|);
    assert cs[..|cs|] == cs;
    assert text[..|text|] == text;
  }

  // ---------------------------------------------------------------- how many chunks

  lemma {:induction false} CountFrom(w: Window, text: string, start: nat, position: nat)
    requires w.Valid() && w.Stride() > 0 && start < |text|
    ensures (|ChunksFrom(w, text, start, position)| - 1) * w.Stride() < |text| - start
    decreases |text| - start
  {
    var end := Cut(w, text, start);
    if end != |text| {
      var next := Next(w, start, end);
      assert next >= start + w.Stride();
      var rest := ChunksFrom(w, text, next, position + 1);
      assert |ChunksFrom(w, text, start, position)| == 1 + |rest|;
      if next < |text| {
        CountFrom(w, text, next, position + 1);
        assert |rest| * w.Stride() == (|rest| - 1) * w.Stride() + w.Stride();
      }
    }
  }

  /** With overlap + slack below the window size the number of chunks is at most 1 + (n - 1) / stride. */
  lemma ChunkCountBound(w: Window, text: string)
    requires w.Valid() && w.Stride() > 0 && text != []
    ensures (|Chunks(w, text)| - 1) * w.Stride() < |text|
  {
    CountFrom(w, text, 0, 0);
  }
}
