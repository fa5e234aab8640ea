/** Chunk records with line numbers and content hashes, and the lookup of a chunk by line. */
module Records {
  import opened Prelude
  import opened Lines
  import opened Chunker

  type Bytes = seq<int>
  type Digest = string
  type Vector = seq<real>

  /** The functions the indexer is handed: hashing, decoding, embedding, the filter chain, the windows. */
  datatype Env = Env(fileHash: Bytes -> Digest, textHash: string -> Digest, decode: Bytes -> string,
                     encode: string -> Vector, shouldIndex: (string, Bytes) -> bool, window: Window)

  /** Digests identify their contents. */
  ghost predicate CollisionFree(env: Env) {
    && (forall a, b :: env.fileHash(a) == env.fileHash(b) ==> a == b)
    && (forall a, b :: env.textHash(a) == env.textHash(b) ==> a == b)
  }

  datatype Record = Record(chunkIndex: nat, startOffset: nat, endOffset: nat, startLine: nat, endLine: nat,
                           tokenCount: nat, contentHash: Digest, text: string)

  /** A chunk cited by the lines of its first and of its last character. */
  function RecordOf(env: Env, text: string, c: RawChunk, index: nat): Record
    requires c.startOffset < |text| && c.endOffset <= |text|
  {
    Record(index, c.startOffset, c.endOffset,
           LineOf(text, c.startOffset), LineOf(text, Max(c.endOffset - 1, c.startOffset)),
           c.tokenCount, env.textHash(c.text), c.text)
  }

  lemma {:induction false} ChunksInBounds(w: Window, text: string, start: nat, position: nat)
    requires w.Valid()
    ensures forall c :: c in ChunksFrom(w, text, start, position) ==>
              c.startOffset < |text| && c.endOffset <= |text|
    decreases |text| - start
  {
    if start < |text| && Cut(w, text, start) != |text| {
      ChunksInBounds(w, text, Next(w, start, Cut(w, text, start)), position + 1);
    }
  }

  /** All records of one text. */
  function RecordsOf(env: Env, text: string): (rs: seq<Record>)
    requires env.window.Valid()
    ensures |rs| == |Chunks(env.window, text)|
  {
    var cs := Chunks(env.window, text);
    ChunksInBounds(env.window, text, 0, 0);
    seq(|cs|, i requires 0 <= i < |cs| => RecordOf(env, text, cs[i], i))
  }

  /** `_build_records`: line starts are computed once, then bisected for every chunk. */
  method BuildRecords(env: Env, text: string, rawChunks: seq<RawChunk>)
    returns (records: seq<Record>, hashes: seq<Digest>)
    requires env.window.Valid() && rawChunks == Chunks(env.window, text)
    ensures records == RecordsOf(env, text)
    ensures hashes == Hashes(records)
  {
    var lineOffsets := LineStartOffsets(text);
    ChunksInBounds(env.window, text, 0, 0);
    hide LineOf, LineStarts, ChunksFrom, OffsetToLine, RecordOf;
    records, hashes := [], [];
    for idx := 0 to |rawChunks|
      invariant |records| == |hashes| == idx
      invariant forall j :: 0 <= j < idx ==> records[j] == RecordOf(env, text, rawChunks[j], j)
      invariant forall j :: 0 <= j < idx ==> hashes[j] == records[j].contentHash
    {
      var c := rawChunks[idx];
      var lastOffset := Max(c.endOffset - 1, c.startOffset);
      var chunkHash := env.textHash(c.text);
      var record := Record(idx, c.startOffset, c.endOffset, OffsetToLine(lineOffsets, c.startOffset),
                           OffsetToLine(lineOffsets, lastOffset), c.tokenCount, chunkHash, c.text);
      RecordIs(env, text, c, idx);
      records := records + [record];
      hashes := hashes + [chunkHash];
    }
  }

  /** Bisecting the line starts gives the lines of the record. */
  lemma RecordIs(env: Env, text: string, c: RawChunk, index: nat)
    requires c.startOffset < |text| && c.endOffset <= |text|
    ensures RecordOf(env, text, c, index)
            == Record(index, c.startOffset, c.endOffset, OffsetToLine(LineStarts(text), c.startOffset),
                      OffsetToLine(LineStarts(text), Max(c.endOffset - 1, c.startOffset)), c.tokenCount,
                      env.textHash(c.text), c.text)
  {
    hide LineStarts, LineOf, OffsetToLine;
    OffsetToLineIsExact(text, c.startOffset);
    OffsetToLineIsExact(text, Max(c.endOffset - 1, c.startOffset));
  }

  function Hashes(records: seq<Record>): (hs: seq<Digest>)
    ensures |hs| == |records|
  {
    seq(|records|, i requires 0 <= i < |records| => records[i].contentHash)
  }

  // ---------------------------------------------------------------- citations

  predicate SpansLine(r: Record, line: int) { r.startLine <= line <= r.endLine }

  /** `_pick_chunk_for_line`: the first chunk whose lines include `line`, else the first chunk. */
  function PickChunkForLine(ordered: seq<Record>, line: Option<int>): (r: Record)
    requires ordered != []
    ensures r in ordered
    ensures line.Some? && (exists i :: 0 <= i < |ordered| && SpansLine(ordered[i], line.value))
            ==> SpansLine(r, line.value)
  {
    if line.None? then ordered[0]
    else
      match FirstSpanning(ordered, line.value)
      case Some(r) => r
      case None => ordered[0]
  }

  function FirstSpanning(ordered: seq<Record>, line: int): (r: Option<Record>)
    ensures r.Some? ==> r.value in ordered && SpansLine(r.value, line)
    ensures (exists i :: 0 <= i < |ordered| && SpansLine(ordered[i], line)) ==> r.Some?
  {
    if ordered == [] then None
    else if SpansLine(ordered[0], line) then Some(ordered[0])
    else
      var rest := FirstSpanning(ordered[1..], line);
      assert (exists i :: 0 <= i < |ordered| && SpansLine(ordered[i], line)) ==> rest.Some? by {
        if i :| 0 <= i < |ordered| && SpansLine(ordered[i], line) {
          assert ordered[1..][i - 1] == ordered[i];
        }
      }
      rest
  }

  /** It is the first one that spans the line, and the very first where none does or no line is asked for. */
  lemma {:induction false} PickIsFirst(ordered: seq<Record>, line: Option<int>, i: nat)
    requires i < |ordered|
    requires line.Some? && SpansLine(ordered[i], line.value)
             && forall j :: 0 <= j < i ==> !SpansLine(ordered[j], line.value)
    ensures PickChunkForLine(ordered, line) == ordered[i]
    decreases |ordered|
  {
    if i > 0 {
      assert forall j :: 0 <= j < i - 1 ==> ordered[1..][j] == ordered[j + 1];
      PickIsFirst(ordered[1..], line, i - 1);
    }
  }

  lemma PickFallsBack(ordered: seq<Record>, line: Option<int>)
    requires ordered != []
    requires line.None? || forall i :: 0 <= i < |ordered| ==> !SpansLine(ordered[i], line.value)
    ensures PickChunkForLine(ordered, line) == ordered[0]
  {
    if line.Some? {
      var r := FirstSpanning(ordered, line.value);
    }
  }

  /** Record and chunk belong together: place, offsets, text, token count and the hash of the text. */
  lemma RecordsCarry(env: Env, text: string, i: nat)
    requires env.window.Valid() && i < |Chunks(env.window, text)|
    ensures var r, c := RecordsOf(env, text)[i], Chunks(env.window, text)[i];
            && r.chunkIndex == i == c.position && r.startOffset == c.startOffset && r.endOffset == c.endOffset
            && r.text == c.text && r.tokenCount == c.tokenCount && r.contentHash == env.textHash(c.text)
  {
    PositionsCount(env.window, text, 0, 0);
  }

  /** Some character of the chunk really sits on that line. */
  ghost predicate HasCharOnLine(text: string, r: Record, line: int)
    requires r.endOffset <= |text|
  {
    exists o :: r.startOffset <= o < r.endOffset && LineOf(text, o) == line
  }

  function LastLine(text: string): nat
    requires text != []
  {
    LineOf(text, |text| - 1)
  }

  /** Records that tile the text and carry the true lines of their first and last characters. */
  ghost predicate Located(text: string, rs: seq<Record>) {
    && |rs| >= 1
    && rs[0].startOffset == 0
    && rs[|rs| - 1].endOffset == |text|
    && (forall i :: 0 <= i < |rs| ==>
          && rs[i].startOffset < rs[i].endOffset <= |text|
          && rs[i].startLine == LineOf(text, rs[i].startOffset)
          && rs[i].endLine == LineOf(text, rs[i].endOffset - 1))
    && (forall i :: 0 < i < |rs| ==>
          && rs[i - 1].startOffset < rs[i].startOffset <= rs[i - 1].endOffset
          && rs[i - 1].endOffset <= rs[i].endOffset)
  }

  lemma RecordsLocated(env: Env, text: string)
    requires env.window.Valid() && env.window.Gapless() && text != []
    ensures Located(text, RecordsOf(env, text))
  {
    ChunksTile(env.window, text);
    TilesLocated(env, text, Chunks(env.window, text), RecordsOf(env, text), env.window.size);
  }

  lemma TilesLocated(env: Env, text: string, cs: seq<RawChunk>, rs: seq<Record>, size: int)
    requires Tiles(text, cs, 0, size) && |rs| == |cs|
    requires forall i :: 0 <= i < |cs| ==> rs[i] == RecordOf(env, text, cs[i], i)
    ensures Located(text, rs)
  {
    hide LineOf;
    forall i | 0 <= i < |rs|
      ensures rs[i].startOffset < rs[i].endOffset <= |text|
      ensures rs[i].startLine == LineOf(text, rs[i].startOffset)
      ensures rs[i].endLine == LineOf(text, rs[i].endOffset - 1)
    {
      assert rs[i] == RecordOf(env, text, cs[i], i);
    }
    assert forall i :: 0 <= i < |rs| ==>
        rs[i].startOffset == cs[i].startOffset && rs[i].endOffset == cs[i].endOffset;
  }

  /** A located record spans exactly the lines its characters sit on. */
  lemma SpanIsReal(text: string, r: Record, line: int)
    requires r.startOffset < r.endOffset <= |text|
    requires r.startLine == LineOf(text, r.startOffset) && r.endLine == LineOf(text, r.endOffset - 1)
    ensures SpansLine(r, line) <==> HasCharOnLine(text, r, line)
  {
    if SpansLine(r, line) {
      var o := LineBetween(text, r.startOffset, r.endOffset - 1, line);
      assert r.startOffset <= o < r.endOffset;
    }
    if HasCharOnLine(text, r, line) {
      var o :| r.startOffset <= o < r.endOffset && LineOf(text, o) == line;
      LineMonotone(text, r.startOffset, o);
      LineMonotone(text, o, r.endOffset - 1);
    }
  }

  /** Some record holds any given offset. */
  lemma {:induction false} OffsetIsLocated(text: string, rs: seq<Record>, n: nat, offset: nat) returns (i: nat)
    requires Located(text, rs) && 1 <= n <= |rs| && offset < rs[n - 1].endOffset
    ensures i < |rs| && rs[i].startOffset <= offset < rs[i].endOffset
    decreases n
  {
    if rs[n - 1].startOffset <= offset {
      i := n - 1;
    } else {
      i := OffsetIsLocated(text, rs, n - 1, offset);
    }
  }

  /** Every line of the text up to the one of its last character is spanned by some record. */
  lemma LineIsSpanned(text: string, rs: seq<Record>, line: nat)
    requires text != [] && Located(text, rs)
    requires 1 <= line <= LastLine(text)
    ensures exists i :: 0 <= i < |rs| && SpansLine(rs[i], line)
  {
    var o := LineBetween(text, 0, |text| - 1, line);
    var i := OffsetIsLocated(text, rs, |rs|, o);
    assert HasCharOnLine(text, rs[i], line);
    SpanIsReal(text, rs[i], line);
  }

  /** The line lookup lands on a chunk with a character of that line exactly for the lines of the text. */
  lemma CitationExact(text: string, rs: seq<Record>, line: int)
    requires text != [] && Located(text, rs)
    ensures var r := PickChunkForLine(rs, Some(line));
            && r.endOffset <= |text|
            && (HasCharOnLine(text, r, line) <==> 1 <= line <= LastLine(text))
  {
    var r := PickChunkForLine(rs, Some(line));
    var k :| 0 <= k < |rs| && rs[k] == r;
    SpanIsReal(text, r, line);
    if 1 <= line <= LastLine(text) {
      LineIsSpanned(text, rs, line);
    }
    if HasCharOnLine(text, r, line) {
      var o :| r.startOffset <= o < r.endOffset && LineOf(text, o) == line;
      LineMonotone(text, o, |text| - 1);
    }
  }

  /** Neighbouring records leave no line out: each starts no later than the line after its predecessor's last. */
  lemma LineIntervalsContiguous(text: string, rs: seq<Record>, i: nat)
    requires text != [] && Located(text, rs) && 0 < i < |rs|
    ensures rs[0].startLine == 1 && rs[|rs| - 1].endLine == LastLine(text)
    ensures rs[i - 1].startLine <= rs[i].startLine <= rs[i - 1].endLine + 1
    ensures rs[i - 1].endLine <= rs[i].endLine
  {
    assert LineOf(text, 0) == 1;
    hide LineOf;
    var a, b := rs[i - 1], rs[i];
    LineMonotone(text, a.startOffset, b.startOffset);
    LineMonotone(text, a.endOffset - 1, b.endOffset - 1);
    LineMonotone(text, b.startOffset, a.endOffset);
    LineStep(text, a.endOffset - 1);
  }

  /** End to end: chunk, record, look a line up. */
  lemma IndexedLinesAreCitable(env: Env, text: string, line: int)
    requires env.window.Valid() && env.window.Gapless() && text != []
    ensures RecordsOf(env, text) != []
    ensures var r := PickChunkForLine(RecordsOf(env, text), Some(line));
            && r.endOffset <= |text|
            && (HasCharOnLine(text, r, line) <==> 1 <= line <= LastLine(text))
  {
    RecordsLocated(env, text);
    CitationExact(text, RecordsOf(env, text), line);
  }
}
