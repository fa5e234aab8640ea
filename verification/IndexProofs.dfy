/** What every indexer operation keeps, and what an incremental update is worth. */
module IndexProofs {
  import opened Prelude
  import opened Records
  import opened Chunker
  import opened EmbedStores
  import opened IndexModel

  // ---------------------------------------------------------------- invariants

  function Recs(cs: seq<Chunk>): (rs: seq<Record>)
    ensures |rs| == |cs|
  {
    seq(|cs|, i requires 0 <= i < |cs| => cs[i].rec)
  }

  /** Every chunk points at a live row holding the embedding of its own text; only equal hashes share rows. */
  ghost predicate ChunksSound(env: Env, live: map<nat, Vector>, cs: seq<Chunk>) {
    && (forall i :: 0 <= i < |cs| ==>
          && cs[i].row in live && live[cs[i].row] == env.encode(cs[i].rec.text)
          && cs[i].rec.contentHash == env.textHash(cs[i].rec.text))
    && (forall i, j :: 0 <= i < |cs| && 0 <= j < |cs| && cs[i].row == cs[j].row ==>
          cs[i].rec.contentHash == cs[j].rec.contentHash)
  }

  /** The stored records are those of any content with the stored content hash. */
  ghost predicate ContentMatches(env: Env, f: File)
    requires env.window.Valid()
  {
    forall raw :: env.fileHash(raw) == f.contentHash ==> Recs(f.chunks) == RecordsFor(env, raw)
  }

  ghost predicate FilesDisjoint(s: Index) {
    forall a, b :: a in s.files && b in s.files && a != b ==> RowsOf(s.files[a].chunks) !! RowsOf(s.files[b].chunks)
  }

  /** Holds in every reachable state, repeated chunks or not. */
  ghost predicate Sound(env: Env, s: Index) {
    && env.window.Valid()
    && (forall k :: k in s.files ==> ChunksSound(env, s.live, s.files[k].chunks) && ContentMatches(env, s.files[k]))
    && FilesDisjoint(s)
  }

  ghost predicate RowsDistinct(cs: seq<Chunk>) {
    forall i, j :: 0 <= i < j < |cs| ==> cs[i].row != cs[j].row
  }

  /** Chunks map one-to-one onto exactly the live rows: nothing shared, nothing leaked. */
  ghost predicate Exact(s: Index) {
    && (forall k :: k in s.files ==> RowsDistinct(s.files[k].chunks))
    && s.live.Keys == RowsOfKeys(s, s.files.Keys)
  }

  /** No hash that an update carries over occurs twice, before or after. */
  ghost predicate CarriedOnce(prior: seq<Chunk>, hashes: seq<Digest>) {
    && (forall i, j :: 0 <= i < j < |prior| && prior[i].rec.contentHash == prior[j].rec.contentHash ==>
          prior[i].rec.contentHash !in hashes)
    && (forall i, j :: 0 <= i < j < |hashes| && hashes[i] == hashes[j] ==> hashes[i] !in ChunkHashes(prior))
  }

  // ---------------------------------------------------------------- the diff of one file

  /** Live rows after one file is re-diffed. */
  function DiffLive(env: Env, live: map<nat, Vector>, prior: seq<Chunk>, records: seq<Record>, rows: seq<nat>)
    : map<nat, Vector>
    requires |rows| == |Misses(Hashes(records), KeptRows(prior, Hashes(records)), |records|)|
  {
    var hashes := Hashes(records);
    Placed(live - DroppedRows(prior, hashes), rows,
           Encoded(env, Texts(records, Misses(hashes, KeptRows(prior, hashes), |records|))))
  }

  ghost predicate DiffReady(live: map<nat, Vector>, prior: seq<Chunk>, records: seq<Record>, rows: seq<nat>) {
    var hashes := Hashes(records);
    FreshRows(live - DroppedRows(prior, hashes), rows, |Misses(hashes, KeptRows(prior, hashes), |records|)|)
  }

  function DiffChunks(prior: seq<Chunk>, records: seq<Record>, rows: seq<nat>): seq<Chunk>
    requires |rows| == |Misses(Hashes(records), KeptRows(prior, Hashes(records)), |records|)|
  {
    FinalChunks(records, KeptRows(prior, Hashes(records)), rows)
  }

  /** A chunk whose hash is known reuses the row of the last old chunk with that hash, and keeps it live. */
  lemma CarriedChunk(env: Env, live: map<nat, Vector>, prior: seq<Chunk>, records: seq<Record>, rows: seq<nat>, i: nat)
    returns (j: nat)
    requires ChunksSound(env, live, prior) && DiffReady(live, prior, records, rows)
    requires i < |records| && records[i].contentHash in KeptRows(prior, Hashes(records))
    ensures LastWithHash(prior, records[i].contentHash, j)
    ensures DiffChunks(prior, records, rows)[i] == Chunk(records[i], prior[j].row)
    ensures prior[j].row in live - DroppedRows(prior, Hashes(records))
    ensures prior[j].row !in rows
    ensures prior[j].row in DiffLive(env, live, prior, records, rows)
    ensures DiffLive(env, live, prior, records, rows)[prior[j].row] == live[prior[j].row]
  {
    var hashes := Hashes(records);
    var h := records[i].contentHash;
    j := RowByHashHit(prior, h);
    assert DiffChunks(prior, records, rows)[i] == FinalChunk(records, KeptRows(prior, hashes), rows, i);
    assert hashes[i] == h;
  }

  /** A chunk whose hash is new gets a fresh row holding its embedding. */
  lemma EmbeddedChunk(env: Env, live: map<nat, Vector>, prior: seq<Chunk>, records: seq<Record>, rows: seq<nat>, i: nat)
    returns (m: nat)
    requires DiffReady(live, prior, records, rows)
    requires i < |records| && records[i].contentHash !in KeptRows(prior, Hashes(records))
    ensures m == |Misses(Hashes(records), KeptRows(prior, Hashes(records)), i)| < |rows|
    ensures DiffChunks(prior, records, rows)[i] == Chunk(records[i], rows[m])
    ensures rows[m] in DiffLive(env, live, prior, records, rows)
    ensures DiffLive(env, live, prior, records, rows)[rows[m]] == env.encode(records[i].text)
  {
    var hashes := Hashes(records);
    var kept := KeptRows(prior, hashes);
    m := |Misses(hashes, kept, i)|;
    MissesGrow(hashes, kept, i, |records|);
    assert DiffChunks(prior, records, rows)[i] == FinalChunk(records, kept, rows, i);
    var todo := Misses(hashes, kept, |records|);
    PlacedAt(live - DroppedRows(prior, hashes), rows, Encoded(env, Texts(records, todo)), m);
  }

  /** Misses before two different missing positions differ in number. */
  lemma MissesOrder(hashes: seq<Digest>, kept: map<Digest, nat>, i: nat, j: nat)
    requires i < j <= |hashes| && hashes[i] !in kept
    ensures |Misses(hashes, kept, i)| < |Misses(hashes, kept, j)|
  {
    MissesGrow(hashes, kept, i, j);
  }

  /** The re-diffed chunks are sound. */
  lemma DiffSound(env: Env, live: map<nat, Vector>, prior: seq<Chunk>, records: seq<Record>, rows: seq<nat>)
    requires CollisionFree(env) && ChunksSound(env, live, prior) && DiffReady(live, prior, records, rows)
    requires forall i :: 0 <= i < |records| ==> records[i].contentHash == env.textHash(records[i].text)
    ensures ChunksSound(env, DiffLive(env, live, prior, records, rows), DiffChunks(prior, records, rows))
    ensures Recs(DiffChunks(prior, records, rows)) == records
  {
    var hashes := Hashes(records);
    var kept := KeptRows(prior, hashes);
    var cs := DiffChunks(prior, records, rows);
    var live' := DiffLive(env, live, prior, records, rows);
    forall i | 0 <= i < |cs|
      ensures cs[i].rec == records[i] && cs[i].row in live' && live'[cs[i].row] == env.encode(cs[i].rec.text)
    {
      if records[i].contentHash in kept {
        var j := CarriedChunk(env, live, prior, records, rows, i);
        assert prior[j].rec.text == records[i].text;
      } else {
        var m := EmbeddedChunk(env, live, prior, records, rows, i);
      }
    }
    forall i, j | 0 <= i < |cs| && 0 <= j < |cs| && cs[i].row == cs[j].row
      ensures cs[i].rec.contentHash == cs[j].rec.contentHash
    {
      SharedRow(env, live, prior, records, rows, i, j);
    }
  }

  /** Two chunks of one diff share a row only when both were carried over with the same hash. */
  lemma SharedRow(env: Env, live: map<nat, Vector>, prior: seq<Chunk>, records: seq<Record>, rows: seq<nat>, i: nat, j: nat)
    requires ChunksSound(env, live, prior) && DiffReady(live, prior, records, rows)
    requires i < |records| && j < |records|
    requires DiffChunks(prior, records, rows)[i].row == DiffChunks(prior, records, rows)[j].row
    ensures records[i].contentHash == records[j].contentHash
    ensures i != j ==> records[i].contentHash in KeptRows(prior, Hashes(records))
  {
    var hashes := Hashes(records);
    var kept := KeptRows(prior, hashes);
    if records[i].contentHash in kept {
      var a := CarriedChunk(env, live, prior, records, rows, i);
      if records[j].contentHash in kept {
        var b := CarriedChunk(env, live, prior, records, rows, j);
      } else {
        var b := EmbeddedChunk(env, live, prior, records, rows, j);
      }
    } else {
      var a := EmbeddedChunk(env, live, prior, records, rows, i);
      if records[j].contentHash in kept {
        var b := CarriedChunk(env, live, prior, records, rows, j);
      } else {
        var b := EmbeddedChunk(env, live, prior, records, rows, j);
        if i < j {
          MissesOrder(hashes, kept, i, j);
        } else if j < i {
          MissesOrder(hashes, kept, j, i);
        }
      }
    }
  }

  /** Rows outside the file are neither freed nor overwritten, and the file gains none of them. */
  lemma DiffFrame(env: Env, live: map<nat, Vector>, prior: seq<Chunk>, records: seq<Record>, rows: seq<nat>, r: nat)
    requires ChunksSound(env, live, prior) && DiffReady(live, prior, records, rows)
    requires r in live && r !in RowsOf(prior)
    ensures r in DiffLive(env, live, prior, records, rows) && DiffLive(env, live, prior, records, rows)[r] == live[r]
    ensures r !in RowsOf(DiffChunks(prior, records, rows))
  {
    var cs := DiffChunks(prior, records, rows);
    if i :| 0 <= i < |cs| && cs[i].row == r {
      if records[i].contentHash in KeptRows(prior, Hashes(records)) {
        var j := CarriedChunk(env, live, prior, records, rows, i);
      } else {
        var m := EmbeddedChunk(env, live, prior, records, rows, i);
      }
    }
  }

  // ---------------------------------------------------------------- soundness of every operation

  lemma RecordHashes(env: Env, content: Bytes)
    requires env.window.Valid()
    ensures forall i :: 0 <= i < |RecordsFor(env, content)| ==>
              RecordsFor(env, content)[i].contentHash == env.textHash(RecordsFor(env, content)[i].text)
  {
    var text := env.decode(content);
    ChunksInBounds(env.window, text, 0, 0);
    var cs := Chunks(env.window, text);
    assert forall i :: 0 <= i < |cs| ==> RecordsOf(env, text)[i] == RecordOf(env, text, cs[i], i);
  }

  /** A file replaced by sound, disjoint chunks leaves a sound index. */
  lemma ReplaceSound(env: Env, s: Index, s': Index, key: Key)
    requires Sound(env, s) && key in s'.files && s'.files == s.files[key := s'.files[key]]
    requires ChunksSound(env, s'.live, s'.files[key].chunks) && ContentMatches(env, s'.files[key])
    requires forall k, i :: k in s.files && k != key && 0 <= i < |s.files[k].chunks| ==>
               var r := s.files[k].chunks[i].row;
               r in s'.live && s'.live[r] == s.live[r] && r !in RowsOf(s'.files[key].chunks)
    ensures Sound(env, s')
  {
    forall k | k in s'.files ensures ChunksSound(env, s'.live, s'.files[k].chunks) && ContentMatches(env, s'.files[k]) {
      if k != key {
        assert s'.files[k] == s.files[k];
        assert ChunksSound(env, s.live, s.files[k].chunks);
      }
    }
    forall a, b | a in s'.files && b in s'.files && a != b
      ensures RowsOf(s'.files[a].chunks) !! RowsOf(s'.files[b].chunks)
    {
      assert a != key ==> s'.files[a] == s.files[a];
      assert b != key ==> s'.files[b] == s.files[b];
    }
  }

  lemma PriorSound(env: Env, s: Index, key: Key)
    requires Sound(env, s)
    ensures ChunksSound(env, s.live, ChunksAt(s, key))
  {
  }

  lemma ReindexSound(env: Env, s: Index, key: Key, disk: DiskFile, rows: seq<nat>)
    requires CollisionFree(env) && Sound(env, s) && !Unchanged(env, s, key, disk.content)
    requires FreshFor(env, s, key, Some(disk), rows)
    ensures Sound(env, Reindex(env, s, key, disk, rows))
    ensures Reindex(env, s, key, disk, rows).live
            == DiffLive(env, s.live, ChunksAt(s, key), RecordsFor(env, disk.content), rows)
    ensures Reindex(env, s, key, disk, rows).files[key].chunks
            == DiffChunks(ChunksAt(s, key), RecordsFor(env, disk.content), rows)
    ensures Recs(Reindex(env, s, key, disk, rows).files[key].chunks) == RecordsFor(env, disk.content)
    ensures DiffReady(s.live, ChunksAt(s, key), RecordsFor(env, disk.content), rows)
  {
    var prior, records := ChunksAt(s, key), RecordsFor(env, disk.content);
    var s' := Reindex(env, s, key, disk, rows);
    PriorSound(env, s, key);
    RecordHashes(env, disk.content);
    DiffSound(env, s.live, prior, records, rows);
    forall k, i | k in s.files && k != key && 0 <= i < |s.files[k].chunks|
      ensures var r := s.files[k].chunks[i].row;
              r in s'.live && s'.live[r] == s.live[r] && r !in RowsOf(s'.files[key].chunks)
    {
      var r := s.files[k].chunks[i].row;
      assert r in RowsOf(s.files[k].chunks);
      assert ChunksSound(env, s.live, s.files[k].chunks);
      DiffFrame(env, s.live, prior, records, rows, r);
    }
    ReplaceSound(env, s, s', key);
  }

  lemma IndexFileSound(env: Env, s: Index, key: Key, disk: Option<DiskFile>, rows: seq<nat>)
    requires CollisionFree(env) && Sound(env, s) && FreshFor(env, s, key, disk, rows)
    ensures Sound(env, IndexFile(env, s, key, disk, rows))
  {
    if disk.Some? && !Unchanged(env, s, key, disk.value.content) {
      ReindexSound(env, s, key, disk.value, rows);
    }
  }

  /** Removing whole files together with exactly their rows leaves a sound index. */
  lemma RemoveSound(env: Env, s: Index, keys: set<Key>)
    requires Sound(env, s) && keys <= s.files.Keys
    ensures Sound(env, Index(s.files - keys, s.live - RowsOfKeys(s, keys)))
    ensures Exact(s) ==> Exact(Index(s.files - keys, s.live - RowsOfKeys(s, keys)))
  {
    var s' := Index(s.files - keys, s.live - RowsOfKeys(s, keys));
    forall k | k in s'.files
      ensures ChunksSound(env, s'.live, s'.files[k].chunks) && ContentMatches(env, s'.files[k])
    {
      var cs := s.files[k].chunks;
      assert ChunksSound(env, s.live, cs);
      forall i | 0 <= i < |cs| ensures cs[i].row !in RowsOfKeys(s, keys) {
        KeptRowsStay(s, keys, k, i);
      }
    }
    if Exact(s) {
      forall r | r in s'.live ensures r in RowsOfKeys(s', s'.files.Keys) {
        assert r in RowsOfKeys(s, s.files.Keys);
        var k, i :| k in s.files && 0 <= i < |s.files[k].chunks| && s.files[k].chunks[i].row == r;
        assert k !in keys;
        assert s'.files[k] == s.files[k];
      }
      forall r | r in RowsOfKeys(s', s'.files.Keys) ensures r in s'.live {
        var k, i :| k in s'.files && 0 <= i < |s'.files[k].chunks| && s'.files[k].chunks[i].row == r;
        assert ChunksSound(env, s'.live, s'.files[k].chunks);
      }
    }
  }

  lemma KeptRowsStay(s: Index, keys: set<Key>, k: Key, i: nat)
    requires FilesDisjoint(s) && k in s.files && k !in keys && i < |s.files[k].chunks|
    ensures s.files[k].chunks[i].row !in RowsOfKeys(s, keys)
  {
    var r := s.files[k].chunks[i].row;
    assert r in RowsOf(s.files[k].chunks);
    forall k' | k' in keys && k' in s.files ensures r !in RowsOf(s.files[k'].chunks) {
      assert RowsOf(s.files[k].chunks) !! RowsOf(s.files[k'].chunks);
    }
    assert forall k', i' :: k' in keys && k' in s.files && 0 <= i' < |s.files[k'].chunks| ==>
        s.files[k'].chunks[i'].row in RowsOf(s.files[k'].chunks);
  }

  lemma DeleteIsRemove(s: Index, key: Key)
    requires key in s.files
    ensures DeleteFile(s, key) == Index(s.files - {key}, s.live - RowsOfKeys(s, {key}))
  {
    assert RowsOfKeys(s, {key}) == RowsOf(s.files[key].chunks);
  }

  lemma DeleteFileSound(env: Env, s: Index, key: Key)
    requires Sound(env, s)
    ensures Sound(env, DeleteFile(s, key))
    ensures Exact(s) ==> Exact(DeleteFile(s, key))
  {
    if key in s.files {
      DeleteIsRemove(s, key);
      RemoveSound(env, s, {key});
    }
  }

  /** An in-place rename moves a file's chunks to a free path untouched. */
  lemma MoveSound(env: Env, s: Index, from: Key, to: Key, mtime: int)
    requires Sound(env, s) && from in s.files && (to == from || to !in s.files)
    ensures var s' := s.(files := (s.files - {from})[to := s.files[from].(mtime := mtime)]);
            Sound(env, s') && (Exact(s) ==> Exact(s'))
  {
    hide ChunksSound, RowsOfKeys;
    var s' := s.(files := (s.files - {from})[to := s.files[from].(mtime := mtime)]);
    forall k | k in s'.files
      ensures ChunksSound(env, s'.live, s'.files[k].chunks) && ContentMatches(env, s'.files[k])
    {
      var k0 := if k == to then from else k;
      assert ChunksSound(env, s.live, s.files[k0].chunks) && ContentMatches(env, s.files[k0]);
    }
    forall a, b | a in s'.files && b in s'.files && a != b
      ensures RowsOf(s'.files[a].chunks) !! RowsOf(s'.files[b].chunks)
    {
      var a0, b0 := if a == to then from else a, if b == to then from else b;
      assert RowsOf(s.files[a0].chunks) !! RowsOf(s.files[b0].chunks);
    }
    MoveKeepsRows(s, s', from, to);
  }

  lemma MoveKeepsRows(s: Index, s': Index, from: Key, to: Key)
    requires from in s.files && (to == from || to !in s.files) && to in s'.files
    requires s'.files == (s.files - {from})[to := s'.files[to]] && s'.files[to].chunks == s.files[from].chunks
    ensures RowsOfKeys(s', s'.files.Keys) == RowsOfKeys(s, s.files.Keys)
  {
    assert RowsOfKeys(s', s'.files.Keys) == RowsOfKeys(s, s.files.Keys) by {
      forall r | r in RowsOfKeys(s, s.files.Keys) ensures r in RowsOfKeys(s', s'.files.Keys) {
        var k, i :| k in s.files && 0 <= i < |s.files[k].chunks| && s.files[k].chunks[i].row == r;
        var k1 := if k == from then to else k;
        assert k1 in s'.files && s'.files[k1].chunks == s.files[k].chunks;
      }
      forall r | r in RowsOfKeys(s', s'.files.Keys) ensures r in RowsOfKeys(s, s.files.Keys) {
        var k, i :| k in s'.files && 0 <= i < |s'.files[k].chunks| && s'.files[k].chunks[i].row == r;
        var k0 := if k == to then from else k;
        assert k0 in s.files && s'.files[k].chunks == s.files[k0].chunks;
      }
    }
  }

  /** Every operation keeps the index sound, whatever the contents. */
  lemma ApplySound(env: Env, s: Index, op: Op)
    requires CollisionFree(env) && Sound(env, s) && Enabled(env, s, op)
    ensures Sound(env, Apply(env, s, op))
  {
    match op
    case Update(key, disk, rows) => IndexFileSound(env, s, key, disk, rows);
    case Delete(key) => DeleteFileSound(env, s, key);
    case Rename(from, to, disk, rows) =>
      match RouteOf(env, s, from, to, disk) {
        case NotIndexed =>
        case Dropped => DeleteFileSound(env, s, from);
        case InPlace => MoveSound(env, s, from, to, disk.value.mtime);
        case Reindexed =>
          DeleteFileSound(env, s, from);
          IndexFileSound(env, DeleteFile(s, from), to, disk, rows);
      }
    case DropProject(project) => RemoveSound(env, s, KeysOf(s, project));
  }

  /** In every state of every run, stored chunks point at live rows that embed their own text. */
  lemma {:induction false} RunsSound(env: Env, states: seq<Index>, ops: seq<Op>, n: nat)
    requires CollisionFree(env) && env.window.Valid()
    requires Run(env, states, ops) && states[0] == EMPTY && n < |states|
    ensures Sound(env, states[n])
    decreases n
  {
    if n > 0 {
      RunsSound(env, states, ops, n - 1);
      ApplySound(env, states[n - 1], ops[n - 1]);
    }
  }

  // ---------------------------------------------------------------- rows one-to-one, exactly when

  /** Carrying every hash at most once keeps a file's rows distinct. */
  lemma DiffDistinct(env: Env, live: map<nat, Vector>, prior: seq<Chunk>, records: seq<Record>, rows: seq<nat>)
    requires ChunksSound(env, live, prior) && DiffReady(live, prior, records, rows)
    requires CarriedOnce(prior, Hashes(records))
    ensures RowsDistinct(DiffChunks(prior, records, rows))
  {
    var cs := DiffChunks(prior, records, rows);
    var hashes := Hashes(records);
    forall i, j | 0 <= i < j < |cs| ensures cs[i].row != cs[j].row {
      assert hashes[i] == records[i].contentHash && hashes[j] == records[j].contentHash;
      if hashes[i] in KeptRows(prior, hashes) {
        var a := RowByHashHit(prior, hashes[i]);
        assert hashes[i] == ChunkHashes(prior)[a];
      }
      if cs[i].row == cs[j].row {
        SharedRow(env, live, prior, records, rows, i, j);
      }
    }
  }

  /** A surviving row of the file is still used when its hash is carried once. */
  lemma CarriedRowUsed(env: Env, live: map<nat, Vector>, prior: seq<Chunk>, records: seq<Record>, rows: seq<nat>, a: nat)
    requires ChunksSound(env, live, prior) && DiffReady(live, prior, records, rows)
    requires CarriedOnce(prior, Hashes(records))
    requires a < |prior| && prior[a].rec.contentHash in Hashes(records)
    ensures prior[a].row in RowsOf(DiffChunks(prior, records, rows))
  {
    var hashes := Hashes(records);
    var i :| 0 <= i < |hashes| && hashes[i] == prior[a].rec.contentHash;
    RowByHashTotal(prior, a);
    assert hashes[i] in KeptRows(prior, hashes);
    var j := CarriedChunk(env, live, prior, records, rows, i);
    assert j == a;
    assert DiffChunks(prior, records, rows)[i].row == prior[a].row;
  }

  /** Fresh rows are all used. */
  lemma FreshRowUsed(env: Env, live: map<nat, Vector>, prior: seq<Chunk>, records: seq<Record>, rows: seq<nat>, m: nat)
    requires DiffReady(live, prior, records, rows) && m < |rows|
    ensures rows[m] in RowsOf(DiffChunks(prior, records, rows))
  {
    var hashes := Hashes(records);
    var kept := KeptRows(prior, hashes);
    var i := Misses(hashes, kept, |records|)[m];
    MissesIndex(hashes, kept, |records|, m);
    var m' := EmbeddedChunk(env, live, prior, records, rows, i);
    assert DiffChunks(prior, records, rows)[i].row == rows[m];
  }

  lemma {:induction false} MissesIndex(hashes: seq<Digest>, kept: map<Digest, nat>, n: nat, m: nat)
    requires n <= |hashes| && m < |Misses(hashes, kept, n)|
    ensures |Misses(hashes, kept, Misses(hashes, kept, n)[m])| == m
    decreases n
  {
    var before := Misses(hashes, kept, n - 1);
    if m < |before| {
      MissesIndex(hashes, kept, n - 1, m);
    }
  }

  /** Of two old chunks with one carried hash, the earlier one's row is left live and unused. */
  lemma RepeatLeaks(env: Env, live: map<nat, Vector>, prior: seq<Chunk>, records: seq<Record>, rows: seq<nat>, a: nat, b: nat)
    requires ChunksSound(env, live, prior) && DiffReady(live, prior, records, rows) && RowsDistinct(prior)
    requires a < b < |prior| && prior[a].rec.contentHash == prior[b].rec.contentHash
    requires prior[a].rec.contentHash in Hashes(records)
    ensures prior[a].row in DiffLive(env, live, prior, records, rows)
    ensures prior[a].row !in RowsOf(DiffChunks(prior, records, rows))
  {
    var cs := DiffChunks(prior, records, rows);
    assert prior[a].row !in DroppedRows(prior, Hashes(records));
    forall i | 0 <= i < |cs| ensures cs[i].row != prior[a].row {
      if records[i].contentHash in KeptRows(prior, Hashes(records)) {
        var j := CarriedChunk(env, live, prior, records, rows, i);
        assert j != a;
      } else {
        var m := EmbeddedChunk(env, live, prior, records, rows, i);
      }
    }
  }

  /** Two new chunks with one carried hash are given the same row. */
  lemma RepeatAliases(env: Env, live: map<nat, Vector>, prior: seq<Chunk>, records: seq<Record>, rows: seq<nat>, i: nat, j: nat)
    requires ChunksSound(env, live, prior) && DiffReady(live, prior, records, rows)
    requires i < j < |records| && records[i].contentHash == records[j].contentHash
    requires records[i].contentHash in ChunkHashes(prior)
    ensures !RowsDistinct(DiffChunks(prior, records, rows))
  {
    var hashes := Hashes(records);
    var a :| 0 <= a < |prior| && ChunkHashes(prior)[a] == records[i].contentHash;
    RowByHashTotal(prior, a);
    assert hashes[i] == records[i].contentHash;
    var x := CarriedChunk(env, live, prior, records, rows, i);
    var y := CarriedChunk(env, live, prior, records, rows, j);
    assert x == y;
  }

  /** `s'` is `s` with one file re-diffed. */
  ghost predicate Rediffed(env: Env, s: Index, s': Index, key: Key, records: seq<Record>, rows: seq<nat>) {
    var prior := ChunksAt(s, key);
    && ChunksSound(env, s.live, prior) && DiffReady(s.live, prior, records, rows)
    && key in s'.files && s'.files == s.files[key := s'.files[key]]
    && s'.files[key].chunks == DiffChunks(prior, records, rows)
    && s'.live == DiffLive(env, s.live, prior, records, rows)
  }

  lemma LiveCoversRows(env: Env, s: Index)
    requires Sound(env, s)
    ensures RowsOfKeys(s, s.files.Keys) <= s.live.Keys
  {
    forall r | r in RowsOfKeys(s, s.files.Keys) ensures r in s.live {
      var k, i :| k in s.files && 0 <= i < |s.files[k].chunks| && s.files[k].chunks[i].row == r;
      assert ChunksSound(env, s.live, s.files[k].chunks);
    }
  }

  /** A live row belongs to the file again, or to another file as before. */
  lemma LiveRowUsed(env: Env, s: Index, s': Index, key: Key, records: seq<Record>, rows: seq<nat>, r: nat)
    requires Rediffed(env, s, s', key, records, rows) && Exact(s)
    requires CarriedOnce(ChunksAt(s, key), Hashes(records)) && r in s'.live
    ensures r in RowsOf(s'.files[key].chunks) || exists k :: k in s.files && k != key && r in RowsOf(s.files[k].chunks)
  {
    var prior := ChunksAt(s, key);
    if r in rows {
      var m :| 0 <= m < |rows| && rows[m] == r;
      FreshRowUsed(env, s.live, prior, records, rows, m);
    } else {
      assert r in s.live && r !in DroppedRows(prior, Hashes(records));
      var k, i :| k in s.files && 0 <= i < |s.files[k].chunks| && s.files[k].chunks[i].row == r;
      if k == key {
        CarriedRowUsed(env, s.live, prior, records, rows, i);
      } else {
        assert r in RowsOf(s.files[k].chunks);
      }
    }
  }

  lemma UsedRow(s: Index, k: Key, r: nat)
    requires k in s.files && r in RowsOf(s.files[k].chunks)
    ensures r in RowsOfKeys(s, s.files.Keys)
  {
    var i :| 0 <= i < |s.files[k].chunks| && s.files[k].chunks[i].row == r;
    assert k in s.files.Keys;
  }

  lemma RediffNoLeak(env: Env, s: Index, s': Index, key: Key, records: seq<Record>, rows: seq<nat>)
    requires Rediffed(env, s, s', key, records, rows) && Exact(s)
    requires CarriedOnce(ChunksAt(s, key), Hashes(records))
    ensures s'.live.Keys <= RowsOfKeys(s', s'.files.Keys)
  {
    forall r | r in s'.live ensures r in RowsOfKeys(s', s'.files.Keys) {
      LiveRowUsed(env, s, s', key, records, rows, r);
      if r in RowsOf(s'.files[key].chunks) {
        UsedRow(s', key, r);
      } else {
        var k :| k in s.files && k != key && r in RowsOf(s.files[k].chunks);
        UsedRow(s', k, r);
      }
    }
  }

  /** A row the re-diffed file no longer uses is used by no other file either. */
  lemma LeakedRow(env: Env, s: Index, s': Index, key: Key, r: nat)
    requires FilesDisjoint(s) && key in s'.files && s'.files == s.files[key := s'.files[key]]
    requires r in RowsOf(ChunksAt(s, key)) && r in s'.live && r !in RowsOf(s'.files[key].chunks)
    ensures !Exact(s')
  {
    forall k, i | k in s'.files && 0 <= i < |s'.files[k].chunks| ensures s'.files[k].chunks[i].row != r {
      assert s'.files[k].chunks[i].row in RowsOf(s'.files[k].chunks);
      if k != key {
        assert RowsOf(s.files[k].chunks) !! RowsOf(s.files[key].chunks);
      }
    }
    assert r !in RowsOfKeys(s', s'.files.Keys);
  }

  lemma RediffExactIff(env: Env, s: Index, s': Index, key: Key, records: seq<Record>, rows: seq<nat>)
    requires Sound(env, s) && Exact(s) && Sound(env, s') && Rediffed(env, s, s', key, records, rows)
    ensures Exact(s') <==> CarriedOnce(ChunksAt(s, key), Hashes(records))
  {
    hide DiffChunks, DiffLive, DiffReady, ChunksSound, ContentMatches, FilesDisjoint;
    var prior := ChunksAt(s, key);
    if CarriedOnce(prior, Hashes(records)) {
      DiffDistinct(env, s.live, prior, records, rows);
      RediffNoLeak(env, s, s', key, records, rows);
      LiveCoversRows(env, s');
    } else if a, b :| 0 <= a < b < |prior| && prior[a].rec.contentHash == prior[b].rec.contentHash
                      && prior[a].rec.contentHash in Hashes(records) {
      RepeatLeaks(env, s.live, prior, records, rows, a, b);
      assert prior[a].row in RowsOf(prior);
      LeakedRow(env, s, s', key, prior[a].row);
    } else {
      var hashes := Hashes(records);
      var i, j :| 0 <= i < j < |hashes| && hashes[i] == hashes[j] && hashes[i] in ChunkHashes(prior);
      RepeatAliases(env, s.live, prior, records, rows, i, j);
    }
  }

  /** From a one-to-one state, re-indexing a file keeps chunks and live rows one-to-one
      if and only if it carries no hash that is repeated before or after. */
  lemma ReindexExactIff(env: Env, s: Index, key: Key, disk: DiskFile, rows: seq<nat>)
    requires CollisionFree(env) && Sound(env, s) && Exact(s) && !Unchanged(env, s, key, disk.content)
    requires FreshFor(env, s, key, Some(disk), rows)
    ensures Exact(Reindex(env, s, key, disk, rows))
            <==> CarriedOnce(ChunksAt(s, key), Hashes(RecordsFor(env, disk.content)))
  {
    ReindexSound(env, s, key, disk, rows);
    PriorSound(env, s, key);
    RediffExactIff(env, s, Reindex(env, s, key, disk, rows), key, RecordsFor(env, disk.content), rows);
  }

  /** Does this step carry every hash at most once? Only re-indexing can fail to. */
  ghost predicate CarriesOnce(env: Env, s: Index, op: Op)
    requires env.window.Valid()
  {
    match op
    case Update(key, disk, _) =>
      Indexable(env, key.path, disk) && !Unchanged(env, s, key, disk.value.content) ==>
        CarriedOnce(ChunksAt(s, key), Hashes(RecordsFor(env, disk.value.content)))
    case Rename(from, to, disk, _) =>
      RouteOf(env, s, from, to, disk).Reindexed? && !Unchanged(env, DeleteFile(s, from), to, disk.value.content) ==>
        CarriedOnce(ChunksAt(DeleteFile(s, from), to), Hashes(RecordsFor(env, disk.value.content)))
    case _ => true
  }

  /** An operation keeps rows one-to-one if and only if it carries every hash at most once. */
  lemma ApplyExactIff(env: Env, s: Index, op: Op)
    requires CollisionFree(env) && Sound(env, s) && Exact(s) && Enabled(env, s, op)
    ensures Exact(Apply(env, s, op)) <==> CarriesOnce(env, s, op)
  {
    hide Sound, Exact, CarriedOnce, Reindex, DeleteFile, FreshFor;
    match op
    case Update(key, disk, rows) =>
      if Indexable(env, key.path, disk) && !Unchanged(env, s, key, disk.value.content) {
        ReindexExactIff(env, s, key, disk.value, rows);
      }
    case Delete(key) => DeleteFileSound(env, s, key);
    case Rename(from, to, disk, rows) =>
      match RouteOf(env, s, from, to, disk) {
        case NotIndexed =>
        case Dropped => DeleteFileSound(env, s, from);
        case InPlace => MoveSound(env, s, from, to, disk.value.mtime);
        case Reindexed =>
          DeleteFileSound(env, s, from);
          if !Unchanged(env, DeleteFile(s, from), to, disk.value.content) {
            ReindexExactIff(env, DeleteFile(s, from), to, disk.value, rows);
          }
      }
    case DropProject(project) => RemoveSound(env, s, KeysOf(s, project));
  }

  /** Over a whole run: no leak, no shared row, no dangling row in any state if and only if no step carries over a hash
      that is repeated. */
  lemma {:induction false} RunsExact(env: Env, states: seq<Index>, ops: seq<Op>, n: nat)
    requires CollisionFree(env) && env.window.Valid()
    requires Run(env, states, ops) && states[0] == EMPTY && n < |states|
    ensures (forall i :: 0 <= i <= n ==> Exact(states[i])) <==> (forall i :: 0 <= i < n ==> CarriesOnce(env, states[i], ops[i]))
    decreases n
  {
    hide Exact, CarriesOnce, Sound, Apply, Enabled;
    EmptyIndex(env, []);
    if n > 0 {
      RunsExact(env, states, ops, n - 1);
      RunsSound(env, states, ops, n - 1);
      var soFar := forall i :: 0 <= i <= n - 1 ==> Exact(states[i]);
      if soFar {
        assert Exact(states[n - 1]);
        ApplyExactIff(env, states[n - 1], ops[n - 1]);
        assert states[n] == Apply(env, states[n - 1], ops[n - 1]);
        assert (forall i :: 0 <= i <= n ==> Exact(states[i])) <==> Exact(states[n]);
      }
    }
  }

  /** One-character windows cut a doubled first character into two equal chunks. */
  lemma DoubledCharacter(env: Env, text: string)
    requires env.window == Window(1, 0, 1, false, 0) && |text| >= 2 && text[0] == text[1]
    ensures |RecordsOf(env, text)| >= 2
    ensures RecordsOf(env, text)[0].contentHash == RecordsOf(env, text)[1].contentHash == env.textHash(text[..1])
  {
    var w := env.window;
    var cs := Chunks(w, text);
    assert Cut(w, text, 0) == 1 && Next(w, 0, 1) == 1;
    assert cs == [Piece(w, text, 0, 0)] + ChunksFrom(w, text, 1, 1);
    assert ChunksFrom(w, text, 1, 1)[0] == Piece(w, text, 1, 1);
    assert cs[0] == Piece(w, text, 0, 0) && cs[1] == Piece(w, text, 1, 1);
    ChunksInBounds(w, text, 0, 0);
    assert RecordsOf(env, text)[0] == RecordOf(env, text, cs[0], 0);
    assert RecordsOf(env, text)[1] == RecordOf(env, text, cs[1], 1);
    assert cs[0].text == text[..1] == cs[1].text;
  }

  ghost predicate StartsDoubled(text: string, c: char) {
    |text| >= 2 && text[0] == c && text[1] == c
  }

  /** A file with a repeated chunk breaks the one-to-one rows on its second update: with one-character
      windows, "aa" and then "aab", or any two contents that start with the same doubled character. */
  lemma RepeatedChunksBreakRows(env: Env, key: Key, first: DiskFile, second: DiskFile, c: char,
                                rows: seq<nat>, rows': seq<nat>)
    requires CollisionFree(env) && env.window == Window(1, 0, 1, false, 0)
    requires StartsDoubled(env.decode(first.content), c) && StartsDoubled(env.decode(second.content), c)
    requires first.content != second.content
    requires FreshFor(env, EMPTY, key, Some(first), rows)
    requires FreshFor(env, IndexFile(env, EMPTY, key, Some(first), rows), key, Some(second), rows')
    ensures var once := IndexFile(env, EMPTY, key, Some(first), rows);
            Exact(once) && !Exact(IndexFile(env, once, key, Some(second), rows'))
  {
    hide Sound, CarriedOnce, Exact, FreshFor, Reindex, ToEmbed, RecordsOf;
    var once := IndexFile(env, EMPTY, key, Some(first), rows);
    FirstIndexing(env, key, first, c, rows);
    DoubledCharacter(env, env.decode(second.content));
    assert env.decode(second.content)[..1] == [c];
    RepeatedHashCarried(env, once, key, second.content);
    ReindexExactIff(env, once, key, second, rows');
  }

  lemma FirstIndexing(env: Env, key: Key, first: DiskFile, c: char, rows: seq<nat>)
    requires CollisionFree(env) && env.window == Window(1, 0, 1, false, 0)
    requires StartsDoubled(env.decode(first.content), c) && FreshFor(env, EMPTY, key, Some(first), rows)
    ensures var once := IndexFile(env, EMPTY, key, Some(first), rows);
            && Sound(env, once) && Exact(once)
            && key in once.files && once.files[key].contentHash == env.fileHash(first.content)
            && |Recs(once.files[key].chunks)| >= 2
            && Recs(once.files[key].chunks)[0].contentHash == Recs(once.files[key].chunks)[1].contentHash
               == env.textHash([c])
  {
    EmptyIndex(env, Hashes(RecordsFor(env, first.content)));
    hide Sound, CarriedOnce, Exact, FreshFor, Reindex, ToEmbed, RecordsOf;
    DoubledCharacter(env, env.decode(first.content));
    assert env.decode(first.content)[..1] == [c];
    ReindexSound(env, EMPTY, key, first, rows);
    ReindexExactIff(env, EMPTY, key, first, rows);
    StoredHash(env, EMPTY, key, first, rows);
  }

  lemma EmptyIndex(env: Env, hashes: seq<Digest>)
    requires env.window.Valid()
    ensures Sound(env, EMPTY) && Exact(EMPTY) && ChunksAt(EMPTY, Key("", "")) == [] && CarriedOnce([], hashes)
  {
    assert RowsOfKeys(EMPTY, {}) == {};
  }

  lemma StoredHash(env: Env, s: Index, key: Key, disk: DiskFile, rows: seq<nat>)
    requires env.window.Valid() && |rows| == |ToEmbed(env, s, key, disk.content)|
    ensures key in Reindex(env, s, key, disk, rows).files
    ensures Reindex(env, s, key, disk, rows).files[key].contentHash == env.fileHash(disk.content)
  {
    hide FinalChunks, Placed, ToEmbed;
  }

  lemma RepeatedHashCarried(env: Env, s: Index, key: Key, content: Bytes)
    requires env.window.Valid() && key in s.files
    requires |Recs(s.files[key].chunks)| >= 2 && |RecordsFor(env, content)| >= 2
    requires Recs(s.files[key].chunks)[0].contentHash == Recs(s.files[key].chunks)[1].contentHash
             == RecordsFor(env, content)[0].contentHash
    ensures !CarriedOnce(ChunksAt(s, key), Hashes(RecordsFor(env, content)))
  {
    var cs := ChunksAt(s, key);
    assert cs[0].rec.contentHash == cs[1].rec.contentHash;
    assert Hashes(RecordsFor(env, content))[0] == cs[0].rec.contentHash;
  }

  // ---------------------------------------------------------------- incremental update refines rebuild

  /** What a search can see of a file: its records, each with the vector at its row. */
  function Retrieved(s: Index, key: Key): seq<(Record, Option<Vector>)> {
    var cs := ChunksAt(s, key);
    seq(|cs|, i requires 0 <= i < |cs| =>
      (cs[i].rec, if cs[i].row in s.live then Some(s.live[cs[i].row]) else None))
  }

  /** What indexing a content from nothing should give. */
  function FromScratch(env: Env, content: Bytes): seq<(Record, Option<Vector>)>
    requires env.window.Valid()
  {
    var rs := RecordsFor(env, content);
    seq(|rs|, i requires 0 <= i < |rs| => (rs[i], Some(env.encode(rs[i].text))))
  }

  /** A sound file with this content hash shows exactly what indexing the content from nothing would. */
  lemma SoundIsFromScratch(env: Env, s: Index, key: Key, content: Bytes)
    requires Sound(env, s) && Unchanged(env, s, key, content)
    ensures Retrieved(s, key) == FromScratch(env, content)
  {
    var cs := s.files[key].chunks;
    assert ChunksSound(env, s.live, cs) && ContentMatches(env, s.files[key]);
    assert Recs(cs) == RecordsFor(env, content);
    assert forall i :: 0 <= i < |cs| ==> Recs(cs)[i] == cs[i].rec;
  }

  /** After an update the file shows the same as after indexing its content into an empty store. */
  lemma UpdateRefinesRebuild(env: Env, s: Index, key: Key, disk: DiskFile, rows: seq<nat>, rows': seq<nat>)
    requires CollisionFree(env) && Sound(env, s) && Indexable(env, key.path, Some(disk))
    requires FreshFor(env, s, key, Some(disk), rows) && FreshFor(env, EMPTY, key, Some(disk), rows')
    ensures Retrieved(UpdateFile(env, s, key, Some(disk), rows), key)
            == Retrieved(UpdateFile(env, EMPTY, key, Some(disk), rows'), key)
            == FromScratch(env, disk.content)
  {
    IndexFileSound(env, s, key, Some(disk), rows);
    SoundIsFromScratch(env, UpdateFile(env, s, key, Some(disk), rows), key, disk.content);
    IndexFileSound(env, EMPTY, key, Some(disk), rows');
    SoundIsFromScratch(env, UpdateFile(env, EMPTY, key, Some(disk), rows'), key, disk.content);
  }

  /** `(n_total, n_new, n_reused)`. */
  function Counts(env: Env, s: Index, key: Key, content: Bytes): (nat, nat, nat)
    requires env.window.Valid()
  {
    if Unchanged(env, s, key, content) then (|ChunksAt(s, key)|, 0, |ChunksAt(s, key)|)
    else
      var total, fewer := |RecordsFor(env, content)|, |ToEmbed(env, s, key, content)|;
      (total, fewer, total - fewer)
  }

  /** The counts are honest: chunks split into new and reused, `new` rows are appended, and a chunk
      is new exactly when its hash was not in the file before. */
  lemma CountsAreHonest(env: Env, s: Index, key: Key, disk: DiskFile, rows: seq<nat>)
    requires CollisionFree(env) && Sound(env, s) && FreshFor(env, s, key, Some(disk), rows)
    ensures var s' := IndexFile(env, s, key, Some(disk), rows);
            var (total, added, reused) := Counts(env, s, key, disk.content);
            && total == added + reused == |ChunksAt(s', key)|
            && (Unchanged(env, s, key, disk.content) ==> s'.live == s.live)
            && (!Unchanged(env, s, key, disk.content) ==>
                  && |rows| == added
                  && s'.live.Keys == Remaining(env, s, key, disk.content).Keys + (set r | r in rows)
                  && forall i :: 0 <= i < total ==>
                       (ChunksAt(s', key)[i].row in rows
                        <==> ChunksAt(s', key)[i].rec.contentHash !in ChunkHashes(ChunksAt(s, key))))
  {
    if !Unchanged(env, s, key, disk.content) {
      ReindexSound(env, s, key, disk, rows);
      PriorSound(env, s, key);
      DiffCounts(env, s.live, ChunksAt(s, key), RecordsFor(env, disk.content), rows);
    }
  }

  lemma DiffCounts(env: Env, live: map<nat, Vector>, prior: seq<Chunk>, records: seq<Record>, rows: seq<nat>)
    requires ChunksSound(env, live, prior) && DiffReady(live, prior, records, rows)
    ensures DiffLive(env, live, prior, records, rows).Keys
            == (live - DroppedRows(prior, Hashes(records))).Keys + (set r | r in rows)
    ensures forall i :: 0 <= i < |records| ==>
              (DiffChunks(prior, records, rows)[i].row in rows
               <==> DiffChunks(prior, records, rows)[i].rec.contentHash !in ChunkHashes(prior))
  {
    forall i | 0 <= i < |records|
      ensures DiffChunks(prior, records, rows)[i].row in rows
              <==> DiffChunks(prior, records, rows)[i].rec.contentHash !in ChunkHashes(prior)
    {
      NewIffUnknown(env, live, prior, records, rows, i);
    }
  }

  lemma NewIffUnknown(env: Env, live: map<nat, Vector>, prior: seq<Chunk>, records: seq<Record>, rows: seq<nat>, i: nat)
    requires ChunksSound(env, live, prior) && DiffReady(live, prior, records, rows) && i < |records|
    ensures DiffChunks(prior, records, rows)[i].row in rows
            <==> DiffChunks(prior, records, rows)[i].rec.contentHash !in ChunkHashes(prior)
  {
    var h := records[i].contentHash;
    assert Hashes(records)[i] == h;
    if h in KeptRows(prior, Hashes(records)) {
      var j := CarriedChunk(env, live, prior, records, rows, i);
      assert ChunkHashes(prior)[j] == h;
    } else {
      var m := EmbeddedChunk(env, live, prior, records, rows, i);
      if j :| 0 <= j < |prior| && ChunkHashes(prior)[j] == h {
        RowByHashTotal(prior, j);
      }
    }
  }

  /** What a rename leaves: nothing changes if the old path is not indexed; a destination the filter rejects drops the file;
      a free destination shows what the old path did, with the mtime on disk; and an indexed one shows what reading it gives. */
  lemma RenameMeans(env: Env, s: Index, from: Key, to: Key, disk: Option<DiskFile>, rows: seq<nat>)
    requires CollisionFree(env) && Sound(env, s) && Enabled(env, s, Rename(from, to, disk, rows))
    ensures var s' := Apply(env, s, Rename(from, to, disk, rows));
            if from !in s.files then s' == s
            else if !Indexable(env, to.path, disk) then s'.files == s.files - {from}
            else if to == from || to !in s.files then
              && s'.files.Keys == s.files.Keys - {from} + {to}
              && s'.files[to].mtime == disk.value.mtime && s'.files[to].contentHash == s.files[from].contentHash
              && Retrieved(s', to) == Retrieved(s, from)
            else
              && s'.files.Keys == s.files.Keys - {from}
              && s'.files[to].contentHash == env.fileHash(disk.value.content)
              && Retrieved(s', to) == FromScratch(env, disk.value.content)
  {
    hide Sound, FreshFor, FinalChunks, Placed, RowsOf, Retrieved, FromScratch;
    match RouteOf(env, s, from, to, disk)
    case NotIndexed =>
    case Dropped =>
    case InPlace => MovedShows(env, s, from, to, disk.value.mtime);
    case Reindexed =>
      DeleteFileSound(env, s, from);
      IndexFileSound(env, DeleteFile(s, from), to, disk, rows);
      IndexedIsKnown(env, DeleteFile(s, from), to, disk.value, rows);
      SoundIsFromScratch(env, IndexFile(env, DeleteFile(s, from), to, disk, rows), to, disk.value.content);
  }

  lemma MovedShows(env: Env, s: Index, from: Key, to: Key, mtime: int)
    requires from in s.files
    ensures Retrieved(s.(files := (s.files - {from})[to := s.files[from].(mtime := mtime)]), to) == Retrieved(s, from)
  {
  }

  lemma IndexedIsKnown(env: Env, s: Index, key: Key, disk: DiskFile, rows: seq<nat>)
    requires FreshFor(env, s, key, Some(disk), rows)
    ensures var s' := IndexFile(env, s, key, Some(disk), rows);
            Unchanged(env, s', key, disk.content) && s'.files.Keys == s.files.Keys + {key}
  {
    hide FinalChunks, Placed;
  }

  // ---------------------------------------------------------------- what stays unchanged

  /** The files an operation may touch. */
  predicate Touches(op: Op, key: Key) {
    match op
    case Update(k, _, _) => key == k
    case Delete(k) => key == k
    case Rename(from, to, _, _) => key == from || key == to
    case DropProject(project) => key.project == project
  }

  /** Searching any other file finds exactly what it found before. */
  lemma ApplyFrame(env: Env, s: Index, op: Op, key: Key)
    requires CollisionFree(env) && Sound(env, s) && Enabled(env, s, op) && !Touches(op, key)
    ensures key in Apply(env, s, op).files <==> key in s.files
    ensures Retrieved(Apply(env, s, op), key) == Retrieved(s, key)
  {
    hide Sound, FreshFor, FinalChunks, Placed, RowsOf, RowsOfKeys;
    var s' := Apply(env, s, op);
    ApplySound(env, s, op);
    if key in s.files {
      assert s'.files[key] == s.files[key];
      SameFileSameView(env, s, s', key);
    }
  }

  /** Soundness alone pins the vectors: the same stored file shows the same in any sound index. */
  lemma SameFileSameView(env: Env, s: Index, s': Index, key: Key)
    requires Sound(env, s) && Sound(env, s')
    requires key in s.files && key in s'.files && s'.files[key].chunks == s.files[key].chunks
    ensures Retrieved(s', key) == Retrieved(s, key)
  {
    var cs := s.files[key].chunks;
    assert ChunksSound(env, s.live, cs) && ChunksSound(env, s'.live, cs);
  }

  /** Dropping a project leaves nothing of it: no file, no chunk, and from a one-to-one state no row. */
  lemma DropProjectLeavesNothing(env: Env, s: Index, project: string)
    requires Sound(env, s) && Exact(s)
    ensures forall k :: k in DeleteProject(s, project).files <==> k in s.files && k.project != project
    ensures Exact(DeleteProject(s, project))
    ensures (forall k :: k in s.files ==> k.project == project) ==> DeleteProject(s, project) == EMPTY
  {
    RemoveSound(env, s, KeysOf(s, project));
    var s' := DeleteProject(s, project);
    if forall k :: k in s.files ==> k.project == project {
      assert s'.files == map[];
      assert s'.live.Keys == {};
    }
  }
}
