/** The chunk index as a value: what every indexer operation does to files, chunks and embedding rows. */
module IndexModel {
  import opened Prelude
  import opened Records
  import opened EmbedStores

  datatype Key = Key(project: string, path: string)

  /** A file as it lies on disk. */
  datatype DiskFile = DiskFile(content: Bytes, mtime: int)

  /** A stored chunk: its record and the embedding row it points at. */
  datatype Chunk = Chunk(rec: Record, row: nat)

  datatype File = File(mtime: int, contentHash: Digest, chunks: seq<Chunk>)

  datatype Index = Index(files: map<Key, File>, live: map<nat, Vector>)

  const EMPTY := Index(map[], map[])

  function ChunksAt(s: Index, key: Key): seq<Chunk> {
    if key in s.files then s.files[key].chunks else []
  }

  // ---------------------------------------------------------------- the chunk diff

  function ChunkHashes(cs: seq<Chunk>): (hs: seq<Digest>)
    ensures |hs| == |cs|
  {
    seq(|cs|, i requires 0 <= i < |cs| => cs[i].rec.contentHash)
  }

  ghost predicate LastWithHash(cs: seq<Chunk>, h: Digest, i: nat) {
    && i < |cs| && cs[i].rec.contentHash == h
    && forall j :: i < j < |cs| ==> cs[j].rec.contentHash != h
  }

  /** `old_by_hash`, reduced to the row: of equal hashes the last one wins. */
  function RowByHash(prior: seq<Chunk>): map<Digest, nat> {
    if prior == [] then map[]
    else
      var k := |prior| - 1;
      RowByHash(prior[..k])[prior[k].rec.contentHash := prior[k].row]
  }

  /** A hash is found exactly when some chunk has it, and then with the row of the last such chunk. */
  lemma {:induction false} RowByHashHit(prior: seq<Chunk>, h: Digest) returns (i: nat)
    requires h in RowByHash(prior)
    ensures LastWithHash(prior, h, i) && RowByHash(prior)[h] == prior[i].row
  {
    var k := |prior| - 1;
    if prior[k].rec.contentHash == h {
      i := k;
    } else {
      i := RowByHashHit(prior[..k], h);
    }
  }

  lemma {:induction false} RowByHashTotal(prior: seq<Chunk>, i: nat)
    requires i < |prior|
    ensures prior[i].rec.contentHash in RowByHash(prior)
  {
    var k := |prior| - 1;
    if i < k {
      RowByHashTotal(prior[..k], i);
    }
  }

  /** The rows carried over: hashes of the new text that some old chunk already has. */
  function KeptRows(prior: seq<Chunk>, hashes: seq<Digest>): map<Digest, nat> {
    map h | h in RowByHash(prior) && h in hashes :: RowByHash(prior)[h]
  }

  /** The rows of the old chunks whose hash is gone. */
  function DroppedRows(prior: seq<Chunk>, hashes: seq<Digest>): (r: set<nat>) {
    set i | 0 <= i < |prior| && prior[i].rec.contentHash !in hashes :: prior[i].row
  }

  /** `to_embed_idx` over the first `n` hashes. */
  function Misses(hashes: seq<Digest>, kept: map<Digest, nat>, n: nat): (r: seq<nat>)
    requires n <= |hashes|
    ensures |r| <= n
    ensures forall k :: 0 <= k < |r| ==> r[k] < n && hashes[r[k]] !in kept
  {
    if n == 0 then []
    else Misses(hashes, kept, n - 1) + (if hashes[n - 1] in kept then [] else [n - 1])
  }

  /** The chunk set written back: carried rows where the hash was known, fresh rows in order elsewhere. */
  function FinalChunks(records: seq<Record>, kept: map<Digest, nat>, rows: seq<nat>): (cs: seq<Chunk>)
    requires |rows| == |Misses(Hashes(records), kept, |records|)|
    ensures |cs| == |records|
  {
    seq(|records|, i requires 0 <= i < |records| => FinalChunk(records, kept, rows, i))
  }

  function FinalChunk(records: seq<Record>, kept: map<Digest, nat>, rows: seq<nat>, i: nat): Chunk
    requires i < |records| && |rows| == |Misses(Hashes(records), kept, |records|)|
  {
    var h := records[i].contentHash;
    MissesGrow(Hashes(records), kept, i, |records|);
    Chunk(records[i], if h in kept then kept[h] else rows[|Misses(Hashes(records), kept, i)|])
  }

  lemma {:induction false} MissesGrow(hashes: seq<Digest>, kept: map<Digest, nat>, i: nat, n: nat)
    requires i < n <= |hashes|
    ensures |Misses(hashes, kept, i)| + (if hashes[i] in kept then 0 else 1) <= |Misses(hashes, kept, n)|
    ensures hashes[i] !in kept ==> Misses(hashes, kept, n)[|Misses(hashes, kept, i)|] == i
    decreases n
  {
    if i < n - 1 {
      MissesGrow(hashes, kept, i, n - 1);
    }
  }

  function Texts(records: seq<Record>, idx: seq<nat>): (r: seq<string>)
    requires forall k :: 0 <= k < |idx| ==> idx[k] < |records|
    ensures |r| == |idx|
  {
    seq(|idx|, k requires 0 <= k < |idx| => records[idx[k]].text)
  }

  function Encoded(env: Env, texts: seq<string>): (r: seq<Vector>)
    ensures |r| == |texts|
  {
    seq(|texts|, k requires 0 <= k < |texts| => env.encode(texts[k]))
  }

  // ---------------------------------------------------------------- one file

  /** The records a content chunks into. */
  function RecordsFor(env: Env, content: Bytes): seq<Record>
    requires env.window.Valid()
  {
    RecordsOf(env, env.decode(content))
  }

  function Kept(env: Env, s: Index, key: Key, content: Bytes): map<Digest, nat>
    requires env.window.Valid()
  {
    KeptRows(ChunksAt(s, key), Hashes(RecordsFor(env, content)))
  }

  /** The chunks that have to be embedded. */
  function ToEmbed(env: Env, s: Index, key: Key, content: Bytes): (r: seq<nat>)
    requires env.window.Valid()
    ensures forall k :: 0 <= k < |r| ==> r[k] < |RecordsFor(env, content)|
  {
    Misses(Hashes(RecordsFor(env, content)), Kept(env, s, key, content), |RecordsFor(env, content)|)
  }

  /** Live rows once the rows of vanished chunks are freed. */
  function Remaining(env: Env, s: Index, key: Key, content: Bytes): map<nat, Vector>
    requires env.window.Valid()
  {
    s.live - DroppedRows(ChunksAt(s, key), Hashes(RecordsFor(env, content)))
  }

  /** Row numbers an embedding store may hand out for `n` vectors. */
  ghost predicate FreshRows(live: map<nat, Vector>, rows: seq<nat>, n: nat) {
    |rows| == n && Distinct(rows) && forall r :: r in rows ==> r !in live
  }

  /** The part of `_index_file` behind the content-hash check; `rows` are the rows the store hands out. */
  function Reindex(env: Env, s: Index, key: Key, disk: DiskFile, rows: seq<nat>): Index
    requires env.window.Valid() && |rows| == |ToEmbed(env, s, key, disk.content)|
  {
    var records := RecordsFor(env, disk.content);
    var todo := ToEmbed(env, s, key, disk.content);
    Index(
      s.files[key := File(disk.mtime, env.fileHash(disk.content),
                          FinalChunks(records, Kept(env, s, key, disk.content), rows))],
      Placed(Remaining(env, s, key, disk.content), rows, Encoded(env, Texts(records, todo))))
  }

  /** Is the stored file already the one on disk, as far as the content hash can tell? */
  predicate Unchanged(env: Env, s: Index, key: Key, content: Bytes) {
    key in s.files && s.files[key].contentHash == env.fileHash(content)
  }

  /** Whether indexing this file appends rows at all, and then which rows are acceptable. */
  ghost predicate FreshFor(env: Env, s: Index, key: Key, disk: Option<DiskFile>, rows: seq<nat>) {
    && env.window.Valid()
    && (disk.Some? && !Unchanged(env, s, key, disk.value.content) ==>
          FreshRows(Remaining(env, s, key, disk.value.content), rows,
                    |ToEmbed(env, s, key, disk.value.content)|))
  }

  /** `_index_file`. `None` is an unreadable file. */
  ghost function IndexFile(env: Env, s: Index, key: Key, disk: Option<DiskFile>, rows: seq<nat>): Index
    requires FreshFor(env, s, key, disk, rows)
  {
    if disk.None? || Unchanged(env, s, key, disk.value.content) then s
    else Reindex(env, s, key, disk.value, rows)
  }

  predicate Indexable(env: Env, path: string, disk: Option<DiskFile>) {
    disk.Some? && env.shouldIndex(path, disk.value.content)
  }

  /** `update_file`: a file that fails the filter chain is skipped and leaves the index alone. */
  ghost function UpdateFile(env: Env, s: Index, key: Key, disk: Option<DiskFile>, rows: seq<nat>): Index
    requires FreshFor(env, s, key, disk, rows)
  {
    if Indexable(env, key.path, disk) then IndexFile(env, s, key, disk, rows) else s
  }

  function RowsOf(cs: seq<Chunk>): set<nat> {
    set i | 0 <= i < |cs| :: cs[i].row
  }

  /** `delete_file`: frees the rows of every chunk, then drops file and chunks. */
  function DeleteFile(s: Index, key: Key): Index {
    if key !in s.files then s
    else Index(s.files - {key}, s.live - RowsOf(s.files[key].chunks))
  }

  /** Every row some stored chunk of a file chosen by `keys` points at. */
  function RowsOfKeys(s: Index, keys: set<Key>): set<nat> {
    set k, i | k in keys && k in s.files && 0 <= i < |s.files[k].chunks| :: s.files[k].chunks[i].row
  }

  function KeysOf(s: Index, project: string): set<Key> {
    set k | k in s.files && k.project == project
  }

  function DeleteProject(s: Index, project: string): Index {
    Index(s.files - KeysOf(s, project), s.live - RowsOfKeys(s, KeysOf(s, project)))
  }

  /** How a rename goes. */
  datatype RenameRoute = NotIndexed | Dropped | InPlace | Reindexed

  /** `rename_file`'s branches. The unique (project, path) constraint makes the in-place update fail
      when the destination is already indexed; the source then deletes and reindexes. */
  function RouteOf(env: Env, s: Index, from: Key, to: Key, disk: Option<DiskFile>): RenameRoute {
    if from !in s.files then NotIndexed
    else if !Indexable(env, to.path, disk) then Dropped
    else if to == from || to !in s.files then InPlace
    else Reindexed
  }

  ghost predicate FreshForRename(env: Env, s: Index, from: Key, to: Key, disk: Option<DiskFile>, rows: seq<nat>) {
    && env.window.Valid()
    && (RouteOf(env, s, from, to, disk).Reindexed? ==> FreshFor(env, DeleteFile(s, from), to, disk, rows))
  }

  ghost function RenameFile(env: Env, s: Index, from: Key, to: Key, disk: Option<DiskFile>, rows: seq<nat>): Index
    requires FreshForRename(env, s, from, to, disk, rows)
  {
    match RouteOf(env, s, from, to, disk)
    case NotIndexed => s
    case Dropped => DeleteFile(s, from)
    case InPlace => s.(files := (s.files - {from})[to := s.files[from].(mtime := disk.value.mtime)])
    case Reindexed => IndexFile(env, DeleteFile(s, from), to, disk, rows)
  }

  // ---------------------------------------------------------------- runs

  datatype Op =
    | Update(key: Key, disk: Option<DiskFile>, rows: seq<nat>)
    | Delete(key: Key)
    | Rename(from: Key, to: Key, disk: Option<DiskFile>, rows: seq<nat>)
    | DropProject(project: string)

  ghost predicate Enabled(env: Env, s: Index, op: Op) {
    match op
    case Update(key, disk, rows) => FreshFor(env, s, key, disk, rows)
    case Delete(_) => true
    case Rename(from, to, disk, rows) => from.project == to.project && FreshForRename(env, s, from, to, disk, rows)
    case DropProject(_) => true
  }

  ghost function Apply(env: Env, s: Index, op: Op): Index
    requires Enabled(env, s, op)
  {
    match op
    case Update(key, disk, rows) => UpdateFile(env, s, key, disk, rows)
    case Delete(key) => DeleteFile(s, key)
    case Rename(from, to, disk, rows) => RenameFile(env, s, from, to, disk, rows)
    case DropProject(project) => DeleteProject(s, project)
  }

  /** `states` is a run of `ops`: each state comes from the one before by its operation. */
  ghost predicate Run(env: Env, states: seq<Index>, ops: seq<Op>) {
    && |states| == |ops| + 1
    && forall i :: 0 <= i < |ops| ==> Enabled(env, states[i], ops[i]) && states[i + 1] == Apply(env, states[i], ops[i])
  }
}
