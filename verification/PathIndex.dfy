/** One project's index as the watcher sees it: which content hash and mtime each path carries. */
module PathIndex {
  import opened Prelude
  import opened Records
  import IndexModel
  import opened Events
  import opened EventProofs

  type DiskFile = IndexModel.DiskFile
  type Disk = map<string, DiskFile>
  datatype Entry = Entry(hash: Digest, mtime: int)
  type Paths = map<string, Entry>

  function OnDisk(disk: Disk, p: string): Option<DiskFile> {
    if p in disk then Some(disk[p]) else None
  }

  /** Present and accepted by the filter chain. */
  predicate Indexable(env: Env, disk: Disk, p: string) {
    IndexModel.Indexable(env, p, OnDisk(disk, p))
  }

  function DiskHash(env: Env, disk: Disk, p: string): Digest
    requires p in disk
  {
    env.fileHash(disk[p].content)
  }

  function Get(idx: Paths, p: string): Option<Entry> {
    if p in idx then Some(idx[p]) else None
  }

  function HashAt(idx: Paths, p: string): Option<Digest> {
    if p in idx then Some(idx[p].hash) else None
  }

  // ---------------------------------------------------------------- what each call does

  /** `update_file`. An unchanged hash keeps the record as it is, mtime included. */
  function ApplyUpdate(env: Env, disk: Disk, idx: Paths, p: string): Paths {
    if Indexable(env, disk, p) && HashAt(idx, p) != Some(DiskHash(env, disk, p))
    then idx[p := Entry(DiskHash(env, disk, p), disk[p].mtime)]
    else idx
  }

  function ApplyDelete(idx: Paths, p: string): Paths { idx - {p} }

  /** `rename_file`. */
  function ApplyRename(env: Env, disk: Disk, idx: Paths, from: string, to: string): Paths {
    if from !in idx then idx
    else if !Indexable(env, disk, to) then idx - {from}
    else if to == from || to !in idx then (idx - {from})[to := Entry(idx[from].hash, disk[to].mtime)]
    else ApplyUpdate(env, disk, idx - {from}, to)
  }

  function ApplyEvent(env: Env, disk: Disk, idx: Paths, e: Event): Paths {
    match e.kind
    case Create => ApplyUpdate(env, disk, idx, e.path)
    case Modify => ApplyUpdate(env, disk, idx, e.path)
    case Delete => ApplyDelete(idx, e.path)
    case Rename => if e.oldPath.Some? then ApplyRename(env, disk, idx, e.oldPath.value, e.path) else idx
  }

  /** Events applied in sequence against a disk that does not change meanwhile. */
  function ApplyAll(env: Env, disk: Disk, idx: Paths, es: seq<Event>): Paths {
    if es == [] then idx
    else
      var k := |es| - 1;
      ApplyEvent(env, disk, ApplyAll(env, disk, idx, es[..k]), es[k])
  }

  /** What the worker does with a drained batch: coalesce, then updates before deletes and renames. */
  function ApplyBatch(env: Env, disk: Disk, idx: Paths, es: seq<Event>): Paths {
    ApplyAll(env, disk, idx, Dispatched(Coalesced(es)))
  }

  // ---------------------------------------------------------------- the indexer does exactly this

  function PathsOf(s: IndexModel.Index, project: string): set<string> {
    set k | k in s.files && k.project == project :: k.path
  }

  function Project(s: IndexModel.Index, project: string): (idx: Paths)
    ensures forall p :: p in idx <==> IndexModel.Key(project, p) in s.files
  {
    assert forall p :: p in PathsOf(s, project) <==> IndexModel.Key(project, p) in s.files by {
      forall p | IndexModel.Key(project, p) in s.files ensures p in PathsOf(s, project) {
        assert IndexModel.Key(project, p).path == p;
      }
    }
    map p | p in PathsOf(s, project)
      :: Entry(s.files[IndexModel.Key(project, p)].contentHash, s.files[IndexModel.Key(project, p)].mtime)
  }

  /** The full indexer operation a queued event triggers; `rows` are what the embedding store hands out. */
  function OpFor(project: string, disk: Disk, e: Event, rows: seq<nat>): IndexModel.Op {
    var key := IndexModel.Key(project, e.path);
    match e.kind
    case Delete => IndexModel.Delete(key)
    case Rename =>
      IndexModel.Rename(IndexModel.Key(project, if e.oldPath.Some? then e.oldPath.value else e.path), key,
                        OnDisk(disk, e.path), rows)
    case _ => IndexModel.Update(key, OnDisk(disk, e.path), rows)
  }

  /** Indexing a file sets its record and no other. */
  lemma IndexFileAt(env: Env, s: IndexModel.Index, project: string, disk: Disk, p: string, rows: seq<nat>, q: string)
    requires IndexModel.FreshFor(env, s, IndexModel.Key(project, p), OnDisk(disk, p), rows)
    requires p in disk
    ensures var s' := IndexModel.IndexFile(env, s, IndexModel.Key(project, p), OnDisk(disk, p), rows);
            Get(Project(s', project), q)
            == if q == p && HashAt(Project(s, project), p) != Some(DiskHash(env, disk, p))
               then Some(Entry(DiskHash(env, disk, p), disk[p].mtime))
               else Get(Project(s, project), q)
  {
    hide IndexModel.FinalChunks, IndexModel.Kept, IndexModel.ToEmbed, IndexModel.Remaining, IndexModel.RecordsFor;
  }

  lemma DeleteFileAt(s: IndexModel.Index, project: string, p: string, q: string)
    ensures Get(Project(IndexModel.DeleteFile(s, IndexModel.Key(project, p)), project), q)
            == if q == p then None else Get(Project(s, project), q)
  {
    hide IndexModel.RowsOf;
  }

  lemma UpdateRefines(env: Env, s: IndexModel.Index, project: string, disk: Disk, p: string, rows: seq<nat>, q: string)
    requires IndexModel.FreshFor(env, s, IndexModel.Key(project, p), OnDisk(disk, p), rows)
    ensures Get(Project(IndexModel.UpdateFile(env, s, IndexModel.Key(project, p), OnDisk(disk, p), rows), project), q)
            == Get(ApplyUpdate(env, disk, Project(s, project), p), q)
  {
    hide IndexModel.IndexFile, IndexModel.FreshFor, Project;
    if Indexable(env, disk, p) {
      IndexFileAt(env, s, project, disk, p, rows, q);
    }
  }

  lemma RenameRefines(env: Env, s: IndexModel.Index, project: string, disk: Disk, from: string, to: string,
                      rows: seq<nat>, q: string)
    requires IndexModel.FreshForRename(env, s, IndexModel.Key(project, from), IndexModel.Key(project, to),
                                       OnDisk(disk, to), rows)
    ensures Get(Project(IndexModel.RenameFile(env, s, IndexModel.Key(project, from), IndexModel.Key(project, to),
                                              OnDisk(disk, to), rows), project), q)
            == Get(ApplyRename(env, disk, Project(s, project), from, to), q)
  {
    hide IndexModel.IndexFile, IndexModel.FreshFor, IndexModel.DeleteFile, Project;
    var a, b := IndexModel.Key(project, from), IndexModel.Key(project, to);
    DeleteFileAt(s, project, from, q);
    DeleteFileAt(s, project, from, to);
    match IndexModel.RouteOf(env, s, a, b, OnDisk(disk, to))
    case Reindexed => IndexFileAt(env, IndexModel.DeleteFile(s, a), project, disk, to, rows, q);
    case InPlace => MoveAt(s, project, from, to, disk[to].mtime, q);
    case _ =>
  }

  lemma MoveAt(s: IndexModel.Index, project: string, from: string, to: string, mtime: int, q: string)
    requires IndexModel.Key(project, from) in s.files
    ensures var a, b := IndexModel.Key(project, from), IndexModel.Key(project, to);
            var s' := s.(files := (s.files - {a})[b := s.files[a].(mtime := mtime)]);
            && from in Project(s, project)
            && Get(Project(s', project), q)
               == if q == to then Some(Entry(Project(s, project)[from].hash, mtime))
                  else if q == from then None
                  else Get(Project(s, project), q)
  {
  }

  /** The watcher's view follows the indexer step for step. */
  lemma IndexerRefinesPaths(env: Env, s: IndexModel.Index, project: string, disk: Disk, e: Event, rows: seq<nat>)
    requires e.kind.Rename? ==> e.oldPath.Some?
    requires IndexModel.Enabled(env, s, OpFor(project, disk, e, rows))
    ensures Project(IndexModel.Apply(env, s, OpFor(project, disk, e, rows)), project)
            == ApplyEvent(env, disk, Project(s, project), e)
  {
    hide IndexModel.UpdateFile, IndexModel.DeleteFile, IndexModel.RenameFile, IndexModel.FreshFor,
      IndexModel.FreshForRename, ApplyUpdate, ApplyRename, Project;
    var after := Project(IndexModel.Apply(env, s, OpFor(project, disk, e, rows)), project);
    var expected := ApplyEvent(env, disk, Project(s, project), e);
    forall q ensures Get(after, q) == Get(expected, q) {
      match e.kind
      case Create => UpdateRefines(env, s, project, disk, e.path, rows, q);
      case Modify => UpdateRefines(env, s, project, disk, e.path, rows, q);
      case Delete => DeleteFileAt(s, project, e.path, q);
      case Rename => RenameRefines(env, s, project, disk, e.oldPath.value, e.path, rows, q);
    }
    SameGets(after, expected);
  }

  lemma SameGets(a: Paths, b: Paths)
    requires forall p :: Get(a, p) == Get(b, p)
    ensures a == b
  {
    forall p ensures (p in a <==> p in b) && (p in a ==> a[p] == b[p]) {
      assert Get(a, p) == Get(b, p);
    }
  }

  // ---------------------------------------------------------------- frame

  /** An event only touches the paths it mentions. */
  lemma EventFrame(env: Env, disk: Disk, idx: Paths, e: Event, p: string)
    requires Says(e, p).None?
    ensures Get(ApplyEvent(env, disk, idx, e), p) == Get(idx, p)
  {
  }

  lemma {:induction false} BatchFrame(env: Env, disk: Disk, idx: Paths, es: seq<Event>, p: string)
    requires Mentions(es, p) == 0
    ensures Get(ApplyAll(env, disk, idx, es), p) == Get(idx, p)
    decreases |es|
  {
    if es != [] {
      var k := |es| - 1;
      BatchFrame(env, disk, idx, es[..k], p);
      EventFrame(env, disk, ApplyAll(env, disk, idx, es[..k]), es[k], p);
    }
  }

  lemma {:induction false} ApplyConcat(env: Env, disk: Disk, idx: Paths, a: seq<Event>, b: seq<Event>)
    ensures ApplyAll(env, disk, idx, a + b) == ApplyAll(env, disk, ApplyAll(env, disk, idx, a), b)
    decreases |b|
  {
    if b == [] {
      assert a + b == a;
    } else {
      var k := |b| - 1;
      assert (a + b)[..|a + b| - 1] == a + b[..k];
      ApplyConcat(env, disk, idx, a, b[..k]);
    }
  }

  // ---------------------------------------------------------------- replaying the raw events

  ghost predicate HasDelete(es: seq<Event>, p: string) {
    exists i :: 0 <= i < |es| && es[i].path == p && es[i].kind.Delete?
  }

  /** Replaying raw events leaves each path as its last event and any earlier DELETE dictate. */
  function ReplayedAt(env: Env, disk: Disk, idx: Paths, p: string, last: Option<Event>, deleted: bool): Option<Entry> {
    match last
    case None => Get(idx, p)
    case Some(e) =>
      if e.kind.Delete? then None
      else if deleted then ReadAt(env, disk, p)
      else Get(ApplyUpdate(env, disk, idx, p), p)
  }

  /** What indexing the file for the first time records. */
  function ReadAt(env: Env, disk: Disk, p: string): Option<Entry> {
    if Indexable(env, disk, p) then Some(Entry(DiskHash(env, disk, p), disk[p].mtime)) else None
  }

  /** An update records what reading the file gives, unless the hash is known: then the old mtime stays. */
  lemma UpdateAt(env: Env, disk: Disk, idx: Paths, p: string)
    ensures Get(ApplyUpdate(env, disk, idx, p), p)
            == if Indexable(env, disk, p) && HashAt(idx, p) != Some(DiskHash(env, disk, p)) then ReadAt(env, disk, p)
               else Get(idx, p)
  {
  }

  lemma {:induction false} ReplayIs(env: Env, disk: Disk, idx: Paths, es: seq<Event>, p: string)
    requires AllRaw(es)
    ensures Get(ApplyAll(env, disk, idx, es), p)
            == ReplayedAt(env, disk, idx, p, LastFor(es, p), HasDelete(es, p))
    decreases |es|
  {
    hide HasDelete, Order, Indexable;
    if es != [] {
      var k := |es| - 1;
      ReplayIs(env, disk, idx, es[..k], p);
      HasDeleteSnoc(es, p);
      NoEventNoDelete(es[..k], p);
      LastDeleteCounts(es[..k], p);
      var before := ApplyAll(env, disk, idx, es[..k]);
      UpdateAt(env, disk, idx, p);
      UpdateAt(env, disk, before, p);
      EventAt(env, disk, before, es[k], p);
      hide ApplyUpdate, ApplyEvent, Raw;
    }
  }

  /** A raw event at a path. */
  lemma EventAt(env: Env, disk: Disk, idx: Paths, e: Event, p: string)
    requires Raw(e)
    ensures Get(ApplyEvent(env, disk, idx, e), p)
            == if p != e.path then Get(idx, p)
               else if e.kind.Delete? then None
               else Get(ApplyUpdate(env, disk, idx, p), p)
  {
  }

  lemma LastDeleteCounts(es: seq<Event>, p: string)
    ensures LastFor(es, p).Some? && LastFor(es, p).value.kind.Delete? ==> HasDelete(es, p)
  {
    hide LastFor, Order;
    if LastFor(es, p).Some? && LastFor(es, p).value.kind.Delete? {
      var i :| 0 <= i < |es| && es[i] == LastFor(es, p).value;
    }
  }

  lemma HasDeleteSnoc(es: seq<Event>, p: string)
    requires es != []
    ensures var k := |es| - 1;
            HasDelete(es, p) <==> HasDelete(es[..k], p) || (es[k].path == p && es[k].kind.Delete?)
  {
    var k := |es| - 1;
    if HasDelete(es[..k], p) {
      var i :| 0 <= i < k && es[..k][i].path == p && es[..k][i].kind.Delete?;
      assert es[i].path == p;
    }
    if HasDelete(es, p) {
      var i :| 0 <= i < |es| && es[i].path == p && es[i].kind.Delete?;
      assert i < k ==> es[..k][i] == es[i];
    }
  }

  lemma {:induction false} NoEventNoDelete(es: seq<Event>, p: string)
    ensures LastFor(es, p).None? ==> !HasDelete(es, p)
    decreases |es|
  {
    if HasDelete(es, p) {
      assert HasPath(es, p);
    }
  }

  // ---------------------------------------------------------------- applying the coalesced batch

  /** What the coalesced batch leaves at a path. */
  function CoalescedAt(env: Env, disk: Disk, idx: Paths, es: seq<Event>, p: string): Option<Entry> {
    if p !in Order(es) then Get(idx, p)
    else if LastFor(es, p).value.kind.Delete? then None
    else
      match RenamePair(es)
      case Some((source, destination)) =>
        if p == destination then Get(ApplyRename(env, disk, idx, source, destination), p)
        else Get(ApplyUpdate(env, disk, idx, p), p)
      case None => Get(ApplyUpdate(env, disk, idx, p), p)
  }

  lemma ApplyBatchIs(env: Env, disk: Disk, idx: Paths, es: seq<Event>, p: string)
    requires AllRaw(es)
    ensures Get(ApplyBatch(env, disk, idx, es), p) == CoalescedAt(env, disk, idx, es, p)
  {
    hide Emit, Mentions, LastSays, Updates, Tail, FirstIndex, OfKind;
    var out := Dispatched(Coalesced(es));
    if p !in Order(es) {
      CoalescedMentionsOnce(es, p);
      BatchFrame(env, disk, idx, out, p);
    } else {
      var k := CoalescedEventOf(es, p);
      assert out == out[..k] + [out[k]] + out[k + 1..];
      ApplyConcat(env, disk, idx, out[..k] + [out[k]], out[k + 1..]);
      assert (out[..k] + [out[k]])[..k] == out[..k];
      var before := ApplyAll(env, disk, idx, out[..k]);
      var after := ApplyEvent(env, disk, before, out[k]);
      assert ApplyAll(env, disk, idx, out[..k] + [out[k]]) == after;
      BatchFrame(env, disk, after, out[k + 1..], p);
      BatchFrame(env, disk, idx, out[..k], p);
      IsolatedEvent(env, disk, idx, before, es, p, out, k);
    }
  }

  /** The one event that mentions `p`, applied where the earlier events left its paths alone. */
  lemma IsolatedEvent(env: Env, disk: Disk, idx: Paths, before: Paths, es: seq<Event>, p: string,
                      out: seq<Event>, k: nat)
    requires AllRaw(es) && p in Order(es) && Carrier(es, p) in Order(es)
    requires out == Dispatched(Coalesced(es)) && k < |out|
    requires EventFor(es, Carrier(es, p)) == Some(out[k]) && Says(out[k], p).Some?
    requires before == ApplyAll(env, disk, idx, out[..k])
    requires Get(before, p) == Get(idx, p)
    ensures Get(ApplyEvent(env, disk, before, out[k]), p) == CoalescedAt(env, disk, idx, es, p)
  {
    hide Emit, Mentions, LastSays, Updates, Tail, FirstIndex, OfKind, ApplyAll, Order, LastFor;
    match RenamePair(es)
    case None =>
    case Some((source, destination)) =>
      if p == source || p == destination {
        var other := if p == source then destination else source;
        OtherUntouched(es, other, out, k);
        BatchFrame(env, disk, idx, out[..k], other);
      }
  }

  /** Both ends of a rename are mentioned by the rename alone. */
  lemma OtherUntouched(es: seq<Event>, p: string, out: seq<Event>, k: nat)
    requires AllRaw(es) && p in Order(es)
    requires out == Dispatched(Coalesced(es)) && k < |out| && Says(out[k], p).Some?
    ensures Mentions(out[..k], p) == 0
  {
    hide Dispatched, Coalesced, Order, Says, Mentions;
    CoalescedMentionsOnce(es, p);
    assert out == out[..k] + [out[k]] + out[k + 1..];
    MentionsConcat(out[..k] + [out[k]], out[k + 1..], p);
    MentionsSnoc(out[..k], out[k], p);
  }

  // ---------------------------------------------------------------- when coalescing keeps the meaning

  /** A rename gives its destination what reading the file would have given. */
  predicate FaithfulRename(env: Env, disk: Disk, idx: Paths, source: string, destination: string) {
    Indexable(env, disk, destination) ==>
      if source in idx
      then destination in idx || idx[source].hash == DiskHash(env, disk, destination)
      else HashAt(idx, destination) == Some(DiskHash(env, disk, destination))
  }

  /** The batch deletes the path and ends with it there. */
  ghost predicate Resaved(es: seq<Event>, p: string)
    requires p in Order(es)
  {
    !LastFor(es, p).value.kind.Delete? && HasDelete(es, p)
  }

  /** Dropping the path and reading it again would leave the record as updating it does: a rejected path is not indexed,
      and a path with the hash it had is recorded with the mtime it has. */
  predicate ResaveShows(env: Env, disk: Disk, idx: Paths, p: string) {
    if Indexable(env, disk, p)
    then HashAt(idx, p) == Some(DiskHash(env, disk, p)) ==> idx[p].mtime == disk[p].mtime
    else p !in idx
  }

  ghost predicate SameHashes(a: Paths, b: Paths) {
    forall p :: HashAt(a, p) == HashAt(b, p)
  }

  lemma UpdateHash(env: Env, disk: Disk, idx: Paths, p: string)
    ensures HashAt(ApplyUpdate(env, disk, idx, p), p)
            == if Indexable(env, disk, p) then Some(DiskHash(env, disk, p)) else HashAt(idx, p)
  {
  }

  lemma RenameAt(env: Env, disk: Disk, idx: Paths, from: string, to: string)
    requires from != to
    ensures Get(ApplyRename(env, disk, idx, from, to), to)
            == if from !in idx || !Indexable(env, disk, to) then Get(idx, to)
               else if to in idx then Get(ApplyUpdate(env, disk, idx, to), to)
               else Some(Entry(idx[from].hash, disk[to].mtime))
  {
  }

  /** What one path asks for to be recorded the same by both. */
  ghost predicate PathAgrees(env: Env, disk: Disk, idx: Paths, es: seq<Event>, p: string) {
    p in Order(es) ==>
      && (Resaved(es, p) ==> ResaveShows(env, disk, idx, p))
      && (RenamePair(es).Some? && p == RenamePair(es).value.1 ==>
            FaithfulRename(env, disk, idx, RenamePair(es).value.0, p))
  }

  /** One path is recorded the same by both, hash and mtime, exactly under its share of the conditions. */
  lemma PathMeaningExact(env: Env, disk: Disk, idx: Paths, es: seq<Event>, p: string)
    requires AllRaw(es)
    ensures Get(ApplyBatch(env, disk, idx, es), p) == Get(ApplyAll(env, disk, idx, es), p)
            <==> PathAgrees(env, disk, idx, es, p)
  {
    ApplyBatchIs(env, disk, idx, es, p);
    ReplayIs(env, disk, idx, es, p);
    hide ApplyBatch, ApplyAll, HasDelete, Order, LastFor, Surviving, RenamePair, Indexable, ApplyUpdate, ApplyRename;
    UpdateAt(env, disk, idx, p);
    if RenamePair(es).Some? && p == RenamePair(es).value.1 {
      RenameAt(env, disk, idx, RenamePair(es).value.0, p);
    }
  }

  /** Applying the coalesced batch leaves the very index that replaying the raw events one by one does, mtimes included,
      if and only if each re-saved path shows what reading it would and a synthesised rename is faithful. */
  lemma CoalescingMeaningExact(env: Env, disk: Disk, idx: Paths, es: seq<Event>)
    requires AllRaw(es)
    ensures ApplyBatch(env, disk, idx, es) == ApplyAll(env, disk, idx, es)
            <==> && (forall p :: p in Order(es) && Resaved(es, p) ==> ResaveShows(env, disk, idx, p))
                 && (RenamePair(es).Some? ==>
                       FaithfulRename(env, disk, idx, RenamePair(es).value.0, RenamePair(es).value.1))
  {
    hide ApplyBatch, ApplyAll, Order, LastFor, FaithfulRename, Get, Resaved, ResaveShows;
    forall p
      ensures Get(ApplyBatch(env, disk, idx, es), p) == Get(ApplyAll(env, disk, idx, es), p)
              <==> PathAgrees(env, disk, idx, es, p)
    {
      PathMeaningExact(env, disk, idx, es, p);
    }
    var agree := forall p :: PathAgrees(env, disk, idx, es, p);
    if agree {
      forall p ensures Get(ApplyBatch(env, disk, idx, es), p) == Get(ApplyAll(env, disk, idx, es), p) {
        assert PathAgrees(env, disk, idx, es, p);
      }
      SameGets(ApplyBatch(env, disk, idx, es), ApplyAll(env, disk, idx, es));
      forall p | p in Order(es) && Resaved(es, p) ensures ResaveShows(env, disk, idx, p) {
        assert PathAgrees(env, disk, idx, es, p);
      }
      if RenamePair(es).Some? {
        assert PathAgrees(env, disk, idx, es, RenamePair(es).value.1);
      }
    } else {
      var p :| !PathAgrees(env, disk, idx, es, p);
      assert Get(ApplyBatch(env, disk, idx, es), p) != Get(ApplyAll(env, disk, idx, es), p);
    }
  }

  /** The contents alone agree if and only if no re-saved path that is indexed is rejected and the rename is faithful. */
  lemma CoalescedHashesExact(env: Env, disk: Disk, idx: Paths, es: seq<Event>)
    requires AllRaw(es)
    ensures SameHashes(ApplyBatch(env, disk, idx, es), ApplyAll(env, disk, idx, es))
            <==> && (forall p :: p in Order(es) && Resaved(es, p) ==> Indexable(env, disk, p) || p !in idx)
                 && (RenamePair(es).Some? ==>
                       FaithfulRename(env, disk, idx, RenamePair(es).value.0, RenamePair(es).value.1))
  {
    hide ApplyBatch, ApplyAll, Order, LastFor, FaithfulRename, HashAt, Resaved, Indexable;
    forall p
      ensures HashAt(ApplyBatch(env, disk, idx, es), p) == HashAt(ApplyAll(env, disk, idx, es), p)
              <==> (p in Order(es) ==>
                      && (Resaved(es, p) ==> Indexable(env, disk, p) || p !in idx)
                      && (RenamePair(es).Some? && p == RenamePair(es).value.1 ==>
                            FaithfulRename(env, disk, idx, RenamePair(es).value.0, p)))
    {
      PathHashExact(env, disk, idx, es, p);
    }
  }

  lemma PathHashExact(env: Env, disk: Disk, idx: Paths, es: seq<Event>, p: string)
    requires AllRaw(es)
    ensures HashAt(ApplyBatch(env, disk, idx, es), p) == HashAt(ApplyAll(env, disk, idx, es), p)
            <==> (p in Order(es) ==>
                    && (Resaved(es, p) ==> Indexable(env, disk, p) || p !in idx)
                    && (RenamePair(es).Some? && p == RenamePair(es).value.1 ==>
                          FaithfulRename(env, disk, idx, RenamePair(es).value.0, p)))
  {
    ApplyBatchIs(env, disk, idx, es, p);
    ReplayIs(env, disk, idx, es, p);
    HashOfGet(ApplyBatch(env, disk, idx, es), p);
    HashOfGet(ApplyAll(env, disk, idx, es), p);
    hide ApplyBatch, ApplyAll, HasDelete, Order, LastFor, Surviving, RenamePair, Indexable, ApplyUpdate, ApplyRename;
    UpdateAt(env, disk, idx, p);
    if RenamePair(es).Some? && p == RenamePair(es).value.1 {
      RenameAt(env, disk, idx, RenamePair(es).value.0, p);
    }
  }

  lemma HashOfGet(idx: Paths, p: string)
    ensures HashAt(idx, p) == if Get(idx, p).Some? then Some(Get(idx, p).value.hash) else None
  {
  }

  /** The two differ for a file deleted and put back unchanged with a newer mtime: replaying the events records the new
      mtime, the MODIFY they are coalesced into keeps the old one, and every later walk finds the file newer. */
  lemma ResaveKeepsOldMtime(env: Env, disk: Disk, idx: Paths, p: string)
    requires Indexable(env, disk, p) && HashAt(idx, p) == Some(DiskHash(env, disk, p)) && idx[p].mtime < disk[p].mtime
    ensures var es := [Event(Delete, p, None), Event(Create, p, None)];
            && SameHashes(ApplyBatch(env, disk, idx, es), ApplyAll(env, disk, idx, es))
            && Get(ApplyAll(env, disk, idx, es), p) == Some(Entry(DiskHash(env, disk, p), disk[p].mtime))
            && Get(ApplyBatch(env, disk, idx, es), p) == Some(idx[p])
  {
    hide ApplyBatch, ApplyAll, Order, LastFor, RenamePair, HasDelete, ApplyUpdate, Indexable, SameHashes;
    var es := [Event(Delete, p, None), Event(Create, p, None)];
    ResavedPair(p);
    ApplyBatchIs(env, disk, idx, es, p);
    ReplayIs(env, disk, idx, es, p);
    UpdateAt(env, disk, idx, p);
    CoalescedHashesExact(env, disk, idx, es);
  }

  lemma ResavedPair(p: string)
    ensures var es := [Event(Delete, p, None), Event(Create, p, None)];
            Order(es) == [p] && LastFor(es, p) == Some(es[1]) && HasDelete(es, p) && RenamePair(es).None?
  {
    var es := [Event(Delete, p, None), Event(Create, p, None)];
    assert es[..1] == [es[0]] && es[..1][..0] == [];
    assert Order(es[..1]) == [p] && Order(es) == [p];
    assert LastFor(es, p) == Some(es[1]);
    assert es[0].path == p && es[0].kind.Delete?;
    hide LastFor, Order;
    assert [p][..0] == [] && OfKind(es, [], Delete) == [];
    assert OfKind(es, [p], Delete) == [];
  }
}
