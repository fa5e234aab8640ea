/** The indexer: files and chunks on one side, embedding rows on the other, changed step by step. */
module Indexer {
  import opened Prelude
  import opened Records
  import opened Chunker
  import opened EmbedStores
  import opened IndexModel
  import opened IndexProofs

  /** The `old_by_hash` and `kept_rows` loops. */
  method KeepRows(prior: seq<Chunk>, hashes: seq<Digest>) returns (kept: map<Digest, nat>)
    ensures kept == KeptRows(prior, hashes)
  {
    var rowByHash: map<Digest, nat> := map[];
    for i := 0 to |prior|
      invariant rowByHash == RowByHash(prior[..i])
    {
      assert prior[..i + 1][..i] == prior[..i];
      rowByHash := rowByHash[prior[i].rec.contentHash := prior[i].row];
    }
    assert prior[..|prior|] == prior;
    kept := map[];
    for i := 0 to |hashes|
      invariant kept == map h | h in rowByHash && h in hashes[..i] :: rowByHash[h]
    {
      assert hashes[..i + 1] == hashes[..i] + [hashes[i]];
      if hashes[i] in rowByHash {
        kept := kept[hashes[i] := rowByHash[hashes[i]]];
      }
    }
    assert hashes[..|hashes|] == hashes;
  }

  /** `to_embed_idx`. */
  method IndicesToEmbed(hashes: seq<Digest>, kept: map<Digest, nat>) returns (idx: seq<nat>)
    ensures idx == Misses(hashes, kept, |hashes|)
  {
    idx := [];
    for i := 0 to |hashes|
      invariant idx == Misses(hashes, kept, i)
    {
      if hashes[i] !in kept {
        idx := idx + [i];
      }
    }
  }

  lemma {:induction false} MissesIncrease(hashes: seq<Digest>, kept: map<Digest, nat>, n: nat)
    requires n <= |hashes|
    ensures Distinct(Misses(hashes, kept, n))
    decreases n
  {
    if n > 0 {
      MissesIncrease(hashes, kept, n - 1);
    }
  }

  /** `new_rows`: each index to embed is paired with its appended row. */
  method PairRows(todo: seq<nat>, rows: seq<nat>) returns (newRows: map<nat, nat>)
    requires |rows| == |todo|
    ensures newRows == Placed(map[], todo, rows)
  {
    newRows := map[];
    for m := 0 to |todo|
      invariant newRows == Placed(map[], todo[..m], rows[..m])
    {
      PlacedSnoc(map[], todo[..m], rows, m, todo[m]);
      assert todo[..m + 1] == todo[..m] + [todo[m]];
      newRows := newRows[todo[m] := rows[m]];
    }
    assert todo[..|todo|] == todo && rows[..|todo|] == rows;
  }

  /** The row the pairing gives a missing index is the one its turn in the batch got. */
  lemma PairedRow(records: seq<Record>, kept: map<Digest, nat>, rows: seq<nat>, i: nat)
    requires |rows| == |Misses(Hashes(records), kept, |records|)|
    requires i < |records| && records[i].contentHash !in kept
    ensures var newRows := Placed(map[], Misses(Hashes(records), kept, |records|), rows);
            i in newRows && FinalChunk(records, kept, rows, i) == Chunk(records[i], newRows[i])
  {
    var hashes := Hashes(records);
    assert hashes[i] == records[i].contentHash;
    MissesGrow(hashes, kept, i, |records|);
    MissesIncrease(hashes, kept, |records|);
    PlacedAt(map[], Misses(hashes, kept, |records|), rows, |Misses(hashes, kept, i)|);
  }

  /** `final`: every record with its carried or its new row. */
  method Materialize(records: seq<Record>, kept: map<Digest, nat>, newRows: map<nat, nat>, ghost rows: seq<nat>)
    returns (final: seq<Chunk>)
    requires |rows| == |Misses(Hashes(records), kept, |records|)|
    requires newRows == Placed(map[], Misses(Hashes(records), kept, |records|), rows)
    ensures final == FinalChunks(records, kept, rows)
  {
    hide Misses, Placed;
    final := [];
    for i := 0 to |records|
      invariant final == FinalChunks(records, kept, rows)[..i]
    {
      var h := records[i].contentHash;
      var row: nat;
      if h in kept {
        row := kept[h];
      } else {
        PairedRow(records, kept, rows, i);
        row := newRows[i];
      }
      assert Chunk(records[i], row) == FinalChunk(records, kept, rows, i);
      final := final + [Chunk(records[i], row)];
    }
  }

  class Indexer {
    const env: Env
    const embed: EmbedStore
    var files: map<Key, File>

    ghost function View(): Index
      reads this, embed
    {
      Index(files, embed.Live())
    }

    ghost predicate Valid()
      reads this, embed
    {
      CollisionFree(env) && embed.Valid() && Sound(env, View())
    }

    constructor (env: Env, dim: nat)
      requires CollisionFree(env) && env.window.Valid()
      ensures Valid() && View() == EMPTY && |embed.mm| == 0 && fresh(embed) && this.env == env
    {
      this.env := env;
      files := map[];
      embed := new EmbedStore(dim);
    }

    /** Frees the rows of the chunks whose hash is not wanted any more. Rows in use are never out of range, and rows that
        differ are each freed once. */
    method FreeDropped(prior: seq<Chunk>, wanted: seq<Digest>)
      requires embed.Valid() && RowsLive(prior, embed.Live())
      modifies embed
      ensures embed.Valid() && embed.Live() == old(embed.Live()) - DroppedRows(prior, wanted)
      ensures |embed.mm| == |old(embed.mm)|
      ensures RowsDistinct(prior) ==> embed.doubleFrees == old(embed.doubleFrees)
    {
      assert embed.Live() == embed.Live() - {};
      for i := 0 to |prior|
        invariant embed.Valid() && |embed.mm| == |old(embed.mm)|
        invariant embed.Live() == old(embed.Live()) - DroppedRows(prior[..i], wanted)
        invariant RowsDistinct(prior) ==> embed.doubleFrees == old(embed.doubleFrees)
      {
        DroppedSnoc(prior, wanted, i);
        if prior[i].rec.contentHash !in wanted {
          assert prior[i].row in old(embed.Live());
          assert RowsDistinct(prior) ==> prior[i].row !in DroppedRows(prior[..i], wanted);
          var ok := embed.FreeRow(prior[i].row);
          assert ok; // no IndexError
        }
      }
      assert prior[..|prior|] == prior;
    }

    /** `_index_file` past the content-hash check: chunk, diff by hash, free, embed what is new, replace. */
    method IndexContent(key: Key, disk: DiskFile) returns (counts: (nat, nat, nat), ghost rows: seq<nat>)
      requires env.window.Valid() && embed.Valid() && !Unchanged(env, View(), key, disk.content)
      requires RowsLive(ChunksAt(View(), key), embed.Live())
      modifies this, embed
      ensures embed.Valid()
      ensures RowsDistinct(ChunksAt(old(View()), key)) ==> embed.doubleFrees == old(embed.doubleFrees)
      ensures FreshRows(Remaining(env, old(View()), key, disk.content), rows,
                        |ToEmbed(env, old(View()), key, disk.content)|)
      ensures View() == Reindex(env, old(View()), key, disk, rows)
      ensures counts == Counts(env, old(View()), key, disk.content)
      ensures |embed.mm| == Max(|old(embed.mm)|, |embed.Live()|)
    {
      hide Misses, FinalChunks, KeptRows, DroppedRows, Placed, ChunksFrom, RecordsOf, Texts, Encoded, Hashes,
        Reindex, ToEmbed, Remaining, Counts;
      ghost var s := View();
      var text, fileHash := env.decode(disk.content), env.fileHash(disk.content);
      var prior := if key in files then files[key].chunks else [];
      files := files[key := File(disk.mtime, fileHash, prior)];
      var rawChunks := ChunkCharProxy(env.window, text, 0);
      if rawChunks == [] {
        FreeDropped(prior, []);
        LiveCount(embed.mm, embed.freelist);
        files := files[key := File(disk.mtime, fileHash, [])];
        ReindexEmpty(env, s, key, disk);
        return (0, 0, 0), [];
      }
      counts, rows := IndexChunks(s, key, disk, prior, text, rawChunks);
    }

    /** The same from the chunks on, with the file row written. */
    method IndexChunks(ghost s: Index, key: Key, disk: DiskFile, prior: seq<Chunk>, text: string, rawChunks: seq<RawChunk>)
      returns (counts: (nat, nat, nat), ghost rows: seq<nat>)
      requires env.window.Valid() && embed.Valid() && !Unchanged(env, s, key, disk.content)
      requires prior == ChunksAt(s, key) && text == env.decode(disk.content) && rawChunks == Chunks(env.window, text)
      requires s.live == embed.Live() && RowsLive(prior, embed.Live())
      requires files == s.files[key := File(disk.mtime, env.fileHash(disk.content), prior)]
      modifies this, embed
      ensures embed.Valid()
      ensures RowsDistinct(prior) ==> embed.doubleFrees == old(embed.doubleFrees)
      ensures FreshRows(Remaining(env, s, key, disk.content), rows, |ToEmbed(env, s, key, disk.content)|)
      ensures View() == Reindex(env, s, key, disk, rows)
      ensures counts == Counts(env, s, key, disk.content)
      ensures |embed.mm| == Max(|old(embed.mm)|, |embed.Live()|)
    {
      hide Misses, FinalChunks, KeptRows, DroppedRows, Placed, Chunks, RecordsOf, Texts, Encoded, Hashes,
        Reindex, ToEmbed, Remaining, Counts, LiveRows, RowsLive, RowsDistinct;
      var records, hashes := BuildRecords(env, text, rawChunks);
      var todo;
      todo, rows := DiffAndReplace(key, disk.mtime, env.fileHash(disk.content), prior, records, hashes);
      ReindexIs(env, s, key, disk, prior, records, hashes, KeptRows(prior, hashes), todo, rows);
      counts := (|records|, |todo|, |records| - |todo|);
    }

    /** Keeps the rows of known hashes, frees those of vanished ones, embeds the rest and writes the chunks back. */
    method DiffAndReplace(key: Key, mtime: int, fileHash: Digest, prior: seq<Chunk>, records: seq<Record>,
                          hashes: seq<Digest>) returns (todo: seq<nat>, ghost rows: seq<nat>)
      requires embed.Valid() && hashes == Hashes(records) && RowsLive(prior, embed.Live())
      modifies this, embed
      ensures embed.Valid()
      ensures RowsDistinct(prior) ==> embed.doubleFrees == old(embed.doubleFrees)
      ensures todo == Misses(hashes, KeptRows(prior, hashes), |hashes|)
      ensures FreshRows(old(embed.Live()) - DroppedRows(prior, hashes), rows, |todo|)
      ensures files == old(files)[key := File(mtime, fileHash, FinalChunks(records, KeptRows(prior, hashes), rows))]
      ensures embed.Live() == Placed(old(embed.Live()) - DroppedRows(prior, hashes), rows,
                                     Encoded(env, Texts(records, todo)))
      ensures |embed.mm| == Max(|old(embed.mm)|, |embed.Live()|)
    {
      hide Misses, FinalChunks, KeptRows, DroppedRows, Placed, Texts, Encoded, Hashes;
      var kept := KeepRows(prior, hashes);
      FreeDropped(prior, hashes);
      todo := IndicesToEmbed(hashes, kept);
      assert forall k :: 0 <= k < |todo| ==> todo[k] < |records|;
      var newRows := embed.AppendBatch(Encoded(env, Texts(records, todo)));
      rows := newRows;
      var paired := PairRows(todo, newRows);
      var final := Materialize(records, kept, paired, rows);
      files := files[key := File(mtime, fileHash, final)];
    }

    /** `_index_file`. `None` counts are the unreadable file. */
    method IndexFile(key: Key, disk: Option<DiskFile>) returns (counts: Option<(nat, nat, nat)>, ghost rows: seq<nat>)
      requires Valid()
      modifies this, embed
      ensures Valid()
      ensures FreshFor(env, old(View()), key, disk, rows)
      ensures View() == IndexModel.IndexFile(env, old(View()), key, disk, rows)
      ensures counts == if disk.None? then None else Some(Counts(env, old(View()), key, disk.value.content))
      ensures |embed.mm| == Max(|old(embed.mm)|, |embed.Live()|)
      ensures Exact(old(View())) ==> embed.doubleFrees == old(embed.doubleFrees)
    {
      ghost var s := View();
      LiveCount(embed.mm, embed.freelist);
      rows := [];
      if disk.None? {
        return None, [];
      }
      if key in files && files[key].contentHash == env.fileHash(disk.value.content) {
        return Some((|files[key].chunks|, 0, |files[key].chunks|)), [];
      }
      SoundRowsLive(env, s, key);
      var c, r := IndexContent(key, disk.value);
      IndexFileSound(env, s, key, disk, r);
      return Some(c), r;
    }

    /** `update_file`. `None` counts are the skipped file. */
    method UpdateFile(key: Key, disk: Option<DiskFile>) returns (counts: Option<(nat, nat, nat)>, ghost rows: seq<nat>)
      requires Valid()
      modifies this, embed
      ensures Valid()
      ensures Enabled(env, old(View()), Update(key, disk, rows))
      ensures View() == Apply(env, old(View()), Update(key, disk, rows))
      ensures counts == if Indexable(env, key.path, disk) then Some(Counts(env, old(View()), key, disk.value.content))
                        else None
      ensures |embed.mm| == Max(|old(embed.mm)|, |embed.Live()|)
      ensures Exact(old(View())) ==> embed.doubleFrees == old(embed.doubleFrees)
    {
      if disk.None? || !env.shouldIndex(key.path, disk.value.content) {
        LiveCount(embed.mm, embed.freelist);
        rows := AnyRows(env, View(), key, disk);
        return None, rows;
      }
      counts, rows := IndexFile(key, disk);
    }

    /** `delete_file`. */
    method DeleteFile(key: Key)
      requires Valid()
      modifies this, embed
      ensures Valid()
      ensures View() == Apply(env, old(View()), Delete(key)) == IndexModel.DeleteFile(old(View()), key)
      ensures |embed.mm| == |old(embed.mm)|
      ensures Exact(old(View())) ==> embed.doubleFrees == old(embed.doubleFrees)
    {
      ghost var s := View();
      if key !in files {
        return;
      }
      var cs := files[key].chunks;
      SoundRowsLive(env, s, key);
      FreeDropped(cs, []);
      files := files - {key};
      DropAll(cs);
      DeleteFileSound(env, s, key);
    }

    /** `delete_project`: every row of every file is freed before the records go. */
    method DeleteProject(project: string)
      requires Valid()
      modifies this, embed
      ensures Valid()
      ensures View() == Apply(env, old(View()), DropProject(project))
      ensures |embed.mm| == |old(embed.mm)|
      ensures Exact(old(View())) ==> embed.doubleFrees == old(embed.doubleFrees)
    {
      hide Sound, DroppedRows;
      ghost var s := View();
      var todo := set k | k in files && k.project == project;
      ghost var freed: set<Key> := {};
      assert RowsOfKeys(s, {}) == {};
      assert embed.Live() == s.live - {};
      while todo != {}
        invariant embed.Valid() && files == s.files && |embed.mm| == |old(embed.mm)|
        invariant freed + todo == KeysOf(s, project)
        invariant embed.Live() == s.live - RowsOfKeys(s, freed) && todo !! freed
        invariant Exact(s) ==> embed.doubleFrees == old(embed.doubleFrees)
        decreases todo
      {
        var k :| k in todo;
        UnfreedRowsLive(env, s, k, freed);
        FreeDropped(files[k].chunks, []);
        DropAll(files[k].chunks);
        assert RowsOfKeys(s, freed + {k}) == RowsOfKeys(s, freed) + RowsOf(s.files[k].chunks);
        freed, todo := freed + {k}, todo - {k};
      }
      files := files - (set k | k in files && k.project == project);
      RemoveSound(env, s, KeysOf(s, project));
    }

    /** `rename_file`; `ok` says the cheap path applied. */
    method RenameFile(from: Key, to: Key, disk: Option<DiskFile>) returns (ok: bool, ghost rows: seq<nat>)
      requires Valid() && from.project == to.project
      modifies this, embed
      ensures Valid()
      ensures Enabled(env, old(View()), Rename(from, to, disk, rows))
      ensures View() == Apply(env, old(View()), Rename(from, to, disk, rows))
      ensures ok <==> RouteOf(env, old(View()), from, to, disk).InPlace?
      ensures |embed.mm| == Max(|old(embed.mm)|, |embed.Live()|)
      ensures Exact(old(View())) ==> embed.doubleFrees == old(embed.doubleFrees)
    {
      assert env.window.Valid();
      hide Sound, Exact, FreshFor, IndexModel.IndexFile, IndexModel.DeleteFile, ToEmbed, Apply, Enabled,
        IndexModel.RenameFile, FreshForRename;
      ghost var s := View();
      ok, rows := false, [];
      RenameIs(env, s, from, to, disk, rows);
      LiveCount(embed.mm, embed.freelist);
      if from !in files {
        return;
      }
      if disk.None? || !env.shouldIndex(to.path, disk.value.content) {
        DeleteFile(from);
        LiveCount(embed.mm, embed.freelist);
        return;
      }
      if to == from || to !in files {
        MoveFile(from, to, disk.value.mtime);
        ok := true;
        return;
      }
      // The unique (project, path) constraint rejects the cheap path.
      rows := DeleteAndReindex(from, to, disk);
      RenameIs(env, s, from, to, disk, rows);
    }

    /** The in-place rename: the file row changes, its chunks and rows stay. */
    method MoveFile(from: Key, to: Key, mtime: int)
      requires Valid() && from in files && (to == from || to !in files)
      modifies this`files
      ensures Valid()
      ensures View() == old(View()).(files := (old(files) - {from})[to := old(files)[from].(mtime := mtime)])
    {
      MoveSound(env, View(), from, to, mtime);
      files := (files - {from})[to := files[from].(mtime := mtime)];
    }

    /** The fallback of a rename. */
    method DeleteAndReindex(from: Key, to: Key, disk: Option<DiskFile>) returns (ghost rows: seq<nat>)
      requires Valid()
      modifies this, embed
      ensures Valid()
      ensures FreshFor(env, IndexModel.DeleteFile(old(View()), from), to, disk, rows)
      ensures View() == IndexModel.IndexFile(env, IndexModel.DeleteFile(old(View()), from), to, disk, rows)
      ensures |embed.mm| == Max(|old(embed.mm)|, |embed.Live()|)
      ensures Exact(old(View())) ==> embed.doubleFrees == old(embed.doubleFrees)
    {
      hide Sound, Exact, FreshFor, IndexModel.IndexFile, IndexModel.DeleteFile;
      ghost var s := View();
      ghost var window := env.window.Valid();
      assert Sound(env, s);
      DeleteFile(from);
      DeleteFileSound(env, s, from);
      var _, r := IndexFile(to, disk);
      rows := r;
    }
  }

  /** The lengths the row file takes along a run of the indexer: what every operation above ensures, one after the other. */
  ghost predicate FileLengths(states: seq<Index>, lengths: seq<nat>) {
    && |lengths| == |states| > 0 && lengths[0] == |states[0].live|
    && forall i :: 0 < i < |states| ==> lengths[i] == Max(lengths[i - 1], |states[i].live|)
  }

  /** The row file is exactly as long as the most rows that were ever in use at once. */
  lemma {:induction false} FileIsPeak(states: seq<Index>, lengths: seq<nat>, n: nat)
    requires FileLengths(states, lengths) && n < |states|
    ensures forall i :: 0 <= i <= n ==> |states[i].live| <= lengths[n]
    ensures exists i :: 0 <= i <= n && |states[i].live| == lengths[n]
    decreases n
  {
    if n > 0 {
      FileIsPeak(states, lengths, n - 1);
    }
  }

  /** What a rename amounts to on each route. */
  lemma RenameIs(env: Env, s: Index, from: Key, to: Key, disk: Option<DiskFile>, rows: seq<nat>)
    requires env.window.Valid() && from.project == to.project
    ensures var route := RouteOf(env, s, from, to, disk);
            && (route.Reindexed? ==>
                  (FreshFor(env, IndexModel.DeleteFile(s, from), to, disk, rows) <==>
                     Enabled(env, s, Rename(from, to, disk, rows))))
            && (!route.Reindexed? ==> Enabled(env, s, Rename(from, to, disk, rows)))
    ensures Enabled(env, s, Rename(from, to, disk, rows)) ==>
              Apply(env, s, Rename(from, to, disk, rows))
              == match RouteOf(env, s, from, to, disk)
                 case NotIndexed => s
                 case Dropped => IndexModel.DeleteFile(s, from)
                 case InPlace => s.(files := (s.files - {from})[to := s.files[from].(mtime := disk.value.mtime)])
                 case Reindexed => IndexModel.IndexFile(env, IndexModel.DeleteFile(s, from), to, disk, rows)
  {
    hide FreshFor, IndexModel.DeleteFile, IndexModel.IndexFile;
  }

  /** Every chunk points at a row in use. */
  ghost predicate RowsLive(cs: seq<Chunk>, live: map<nat, Vector>) {
    forall i :: 0 <= i < |cs| ==> cs[i].row in live
  }

  lemma SoundRowsLive(env: Env, s: Index, key: Key)
    requires Sound(env, s)
    ensures RowsLive(ChunksAt(s, key), s.live)
    ensures Exact(s) ==> RowsDistinct(ChunksAt(s, key))
  {
  }

  /** Freeing the rows of other files leaves those of this one in use. */
  lemma UnfreedRowsLive(env: Env, s: Index, k: Key, freed: set<Key>)
    requires Sound(env, s) && k in s.files && k !in freed
    ensures RowsLive(s.files[k].chunks, s.live - RowsOfKeys(s, freed))
    ensures Exact(s) ==> RowsDistinct(s.files[k].chunks)
  {
    var cs := s.files[k].chunks;
    SoundRowsLive(env, s, k);
    forall i | 0 <= i < |cs| ensures cs[i].row in s.live - RowsOfKeys(s, freed) {
      KeptRowsStay(s, freed, k, i);
    }
  }

  lemma DroppedSnoc(prior: seq<Chunk>, wanted: seq<Digest>, i: nat)
    requires i < |prior|
    ensures DroppedRows(prior[..i + 1], wanted)
            == DroppedRows(prior[..i], wanted) + (if prior[i].rec.contentHash in wanted then {} else {prior[i].row})
  {
    var a, b := prior[..i], prior[..i + 1];
    forall r | r in DroppedRows(a, wanted) ensures r in DroppedRows(b, wanted) {
      var j :| 0 <= j < |a| && a[j].rec.contentHash !in wanted && a[j].row == r;
      assert b[j] == a[j];
    }
    forall r | r in DroppedRows(b, wanted)
      ensures r in DroppedRows(a, wanted) || (prior[i].rec.contentHash !in wanted && r == prior[i].row)
    {
      var j :| 0 <= j < |b| && b[j].rec.contentHash !in wanted && b[j].row == r;
      assert j < i ==> a[j] == b[j];
    }
    assert b[i] == prior[i];
  }

  lemma DropAll(cs: seq<Chunk>)
    ensures DroppedRows(cs, []) == RowsOf(cs)
  {
  }

  /** The pieces one re-index is put together from. */
  lemma ReindexIs(env: Env, s: Index, key: Key, disk: DiskFile, prior: seq<Chunk>, records: seq<Record>,
                  hashes: seq<Digest>, kept: map<Digest, nat>, todo: seq<nat>, rows: seq<nat>)
    requires env.window.Valid() && !Unchanged(env, s, key, disk.content)
    requires prior == ChunksAt(s, key) && records == RecordsFor(env, disk.content) && hashes == Hashes(records)
    requires kept == KeptRows(prior, hashes) && todo == Misses(hashes, kept, |hashes|) && |rows| == |todo|
    ensures todo == ToEmbed(env, s, key, disk.content)
    ensures Remaining(env, s, key, disk.content) == s.live - DroppedRows(prior, hashes)
    ensures Reindex(env, s, key, disk, rows)
            == Index(s.files[key := File(disk.mtime, env.fileHash(disk.content), FinalChunks(records, kept, rows))],
                     Placed(s.live - DroppedRows(prior, hashes), rows, Encoded(env, Texts(records, todo))))
    ensures Counts(env, s, key, disk.content) == (|records|, |todo|, |records| - |todo|)
  {
    hide Misses, FinalChunks, KeptRows, DroppedRows, Placed, Texts, Encoded;
  }

  /** A text without chunks drops every row of the file. */
  lemma ReindexEmpty(env: Env, s: Index, key: Key, disk: DiskFile)
    requires env.window.Valid() && RecordsFor(env, disk.content) == []
    ensures FreshRows(Remaining(env, s, key, disk.content), [], |ToEmbed(env, s, key, disk.content)|)
    ensures Reindex(env, s, key, disk, [])
            == Index(s.files[key := File(disk.mtime, env.fileHash(disk.content), [])],
                     s.live - DroppedRows(ChunksAt(s, key), []))
    ensures !Unchanged(env, s, key, disk.content) ==> Counts(env, s, key, disk.content) == (0, 0, 0)
  {
    assert Hashes([]) == [];
  }

  /** A skipped file appends nothing, so any acceptable rows witness the step. */
  ghost function AnyRows(env: Env, s: Index, key: Key, disk: Option<DiskFile>): (rows: seq<nat>)
    requires env.window.Valid()
    ensures FreshFor(env, s, key, disk, rows)
  {
    if disk.Some? && !Unchanged(env, s, key, disk.value.content) then
      var live := Remaining(env, s, key, disk.value.content);
      var n := |ToEmbed(env, s, key, disk.value.content)|;
      var top := Above(live.Keys);
      seq(n, i requires 0 <= i < n => top + i)
    else []
  }

  ghost function Above(s: set<nat>): (top: nat)
    ensures forall r :: r in s ==> r < top
  {
    if s == {} then 0
    else
      var r :| r in s;
      var rest := Above(s - {r});
      assert s == s - {r} + {r};
      if r < rest then rest else r + 1
  }
}
