/** The watcher's per-project queue, its walk and its drain, against a disk that stands still during each call. */
module Watcher {
  import opened Prelude
  import opened Events
  import opened PathIndex
  import opened Watch
  import opened Storm
  import IndexModel
  import Indexer
  import WatchProofs
  import IndexProofs

  /** The recorded mtimes of one project, out of the file table. */
  function RecordedIn(files: map<IndexModel.Key, IndexModel.File>, project: string): map<string, int> {
    map k | k in files && k.project == project :: k.path := files[k].mtime
  }

  lemma RecordedIsProjected(s: IndexModel.Index, project: string)
    ensures RecordedIn(s.files, project) == Recorded(Project(s, project))
  {
    var a, b := RecordedIn(s.files, project), Recorded(Project(s, project));
    forall p ensures (p in a <==> p in b) && (p in a ==> a[p] == b[p]) {
      if p in b {
        assert IndexModel.Key(project, p) in s.files;
      }
    }
  }

  lemma DriftEventsSnoc(cfg: Config, disk: Disk, recorded: map<string, int>, order: seq<string>, p: string)
    ensures DriftEvents(cfg, disk, recorded, order + [p])
            == DriftEvents(cfg, disk, recorded, order)
               + if IsDrift(cfg, disk, recorded, p) then [DriftEvent(recorded, p)] else []
  {
    assert (order + [p])[..|order|] == order;
  }

  lemma EnqueueAllSnoc(queue: seq<Event>, rescan: bool, es: seq<Event>, e: Event, capacity: nat)
    ensures var qr := EnqueueAll(queue, rescan, es, capacity);
            EnqueueAll(queue, rescan, es + [e], capacity) == Enqueue(qr.0, qr.1, e, capacity)
  {
    assert (es + [e])[..|es|] == es;
  }

  lemma NothingQueued(cfg: Config, disk: Disk, recorded: map<string, int>, queue: seq<Event>, rescan: bool)
    ensures EnqueueAll(queue, rescan, DriftEvents(cfg, disk, recorded, []), cfg.capacity) == (queue, rescan)
  {
  }

  class Watcher {
    const cfg: Config
    const project: string
    const indexer: Indexer.Indexer
    var queue: seq<Event>
    var rescanPending: bool

    ghost predicate Valid()
      reads this, indexer, indexer.embed
    {
      && indexer.Valid() && indexer.env == cfg.env
      && |queue| <= cfg.capacity && AllRaw(queue) && (rescanPending ==> queue == [])
    }

    /** The project's paths as indexed. */
    ghost function Indexed(): Paths
      reads indexer, indexer.embed
    {
      Project(indexer.View(), project)
    }

    constructor (cfg: Config, project: string, indexer: Indexer.Indexer)
      requires indexer.Valid() && indexer.env == cfg.env
      ensures Valid() && queue == [] && !rescanPending
      ensures this.cfg == cfg && this.project == project && this.indexer == indexer
    {
      this.cfg, this.project, this.indexer := cfg, project, indexer;
      queue, rescanPending := [], false;
    }

    /** `_enqueue_event`. */
    method EnqueueEvent(e: Event)
      modifies this
      ensures (queue, rescanPending) == Enqueue(old(queue), old(rescanPending), e, cfg.capacity)
    {
      if rescanPending {
        return;
      }
      queue := queue + [e];
      if |queue| > cfg.capacity {
        queue := [];
        rescanPending := true;
      }
    }

    /** The `os.walk` part of the mtime walk: one event per new or newer file. */
    method VisitFiles(disk: Disk, recorded: map<string, int>) returns (seen: set<string>, ghost order: seq<string>)
      modifies this
      ensures seen == set p | p in disk && cfg.walkable(p)
      ensures Distinct(order) && forall p :: p in order <==> p in seen
      ensures (queue, rescanPending) == EnqueueAll(old(queue), old(rescanPending),
                                                   DriftEvents(cfg, disk, recorded, order), cfg.capacity)
    {
      hide EnqueueAll, DriftEvents, Enqueue;
      ghost var q0, r0 := queue, rescanPending;
      NothingQueued(cfg, disk, recorded, q0, r0);
      order, seen := [], {};
      var todo := set p | p in disk && cfg.walkable(p);
      while todo != {}
        invariant Distinct(order) && todo !! seen
        invariant forall p :: p in order <==> p in seen
        invariant todo + seen == set p | p in disk && cfg.walkable(p)
        invariant (queue, rescanPending) == EnqueueAll(q0, r0, DriftEvents(cfg, disk, recorded, order), cfg.capacity)
        decreases todo
      {
        var p :| p in todo;
        DriftEventsSnoc(cfg, disk, recorded, order, p);
        if p !in recorded || disk[p].mtime > recorded[p] {
          EnqueueAllSnoc(q0, r0, DriftEvents(cfg, disk, recorded, order), DriftEvent(recorded, p), cfg.capacity);
          EnqueueEvent(Event(if p in recorded then Modify else Create, p, None));
        } else {
          assert DriftEvents(cfg, disk, recorded, order) + [] == DriftEvents(cfg, disk, recorded, order);
        }
        order := order + [p];
        seen, todo := seen + {p}, todo - {p};
      }
    }

    /** The rest of the walk: one DELETE per recorded path it did not see. */
    method ReportMissing(missing0: set<string>, ghost q0: seq<Event>, ghost r0: bool, ghost drift: seq<Event>)
      returns (ghost gone: seq<string>)
      requires (queue, rescanPending) == EnqueueAll(q0, r0, drift, cfg.capacity)
      modifies this
      ensures Distinct(gone) && forall p :: p in gone <==> p in missing0
      ensures (queue, rescanPending) == EnqueueAll(q0, r0, drift + GoneEvents(gone), cfg.capacity)
    {
      gone := [];
      assert drift + GoneEvents([]) == drift;
      hide EnqueueAll, Enqueue;
      var missing := missing0;
      ghost var reported: set<string> := {};
      while missing != {}
        invariant Distinct(gone) && missing !! reported
        invariant forall p :: p in gone <==> p in reported
        invariant missing + reported == missing0
        invariant (queue, rescanPending) == EnqueueAll(q0, r0, drift + GoneEvents(gone), cfg.capacity)
        decreases missing
      {
        var p :| p in missing;
        var e := Event(Delete, p, None);
        EnqueueAllSnoc(q0, r0, drift + GoneEvents(gone), e, cfg.capacity);
        assert (gone + [p])[..|gone|] == gone;
        assert (drift + GoneEvents(gone)) + [e] == drift + GoneEvents(gone + [p]);
        EnqueueEvent(e);
        gone := gone + [p];
        reported, missing := reported + {p}, missing - {p};
      }
    }

    /** `_mtime_walk_project`: one event per new, newer or missing file, in the order the walk takes; none without a root. */
    method MtimeWalk(disk: Disk, rootExists: bool) returns (ghost order: seq<string>, ghost gone: seq<string>)
      modifies this
      ensures !rootExists ==> (queue, rescanPending) == (old(queue), old(rescanPending))
      ensures rootExists ==>
                var recorded := RecordedIn(indexer.files, project);
                && WalkOrder(cfg, disk, recorded, order, gone)
                && (queue, rescanPending) == EnqueueAll(old(queue), old(rescanPending),
                                                        WalkEvents(cfg, disk, recorded, order, gone), cfg.capacity)
    {
      hide EnqueueAll, DriftEvents, GoneEvents, RecordedIn;
      order, gone := [], [];
      if !rootExists {
        return;
      }
      var recorded := RecordedIn(indexer.files, project);
      ghost var q0, r0 := queue, rescanPending;
      var seen;
      seen, order := VisitFiles(disk, recorded);
      gone := ReportMissing(recorded.Keys - seen, q0, r0, DriftEvents(cfg, disk, recorded, order));
    }

    /** One CREATE or MODIFY handed to the indexer. */
    method UpdateOne(disk: Disk, e: Event)
      requires indexer.Valid() && indexer.env == cfg.env && e.kind in {Create, Modify}
      modifies indexer, indexer.embed
      ensures indexer.Valid() && Indexed() == ApplyEvent(cfg.env, disk, old(Indexed()), e)
    {
      ghost var s := indexer.View();
      var _, rows := indexer.UpdateFile(IndexModel.Key(project, e.path), OnDisk(disk, e.path));
      IndexerRefinesPaths(cfg.env, s, project, disk, e, rows);
    }

    /** One DELETE or RENAME handed to the indexer. */
    method TailOne(disk: Disk, e: Event)
      requires indexer.Valid() && indexer.env == cfg.env && e.kind !in {Create, Modify} && WellShaped(e)
      modifies indexer, indexer.embed
      ensures indexer.Valid() && Indexed() == ApplyEvent(cfg.env, disk, old(Indexed()), e)
    {
      ghost var s := indexer.View();
      if e.kind == Delete {
        indexer.DeleteFile(IndexModel.Key(project, e.path));
        IndexerRefinesPaths(cfg.env, s, project, disk, e, []);
      } else {
        var _, rows := indexer.RenameFile(IndexModel.Key(project, e.oldPath.value), IndexModel.Key(project, e.path),
                                          OnDisk(disk, e.path));
        IndexerRefinesPaths(cfg.env, s, project, disk, e, rows);
      }
    }

    method SplitEvents(events: seq<Event>) returns (bulk: seq<Event>, tail: seq<Event>)
      requires forall i :: 0 <= i < |events| ==> WellShaped(events[i])
      ensures bulk == Updates(events) && tail == Tail(events)
      ensures forall i :: 0 <= i < |bulk| ==> bulk[i].kind in {Create, Modify}
      ensures forall i :: 0 <= i < |tail| ==> tail[i].kind !in {Create, Modify} && WellShaped(tail[i])
    {
      hide WellShaped;
      bulk, tail := [], [];
      for i := 0 to |events|
        invariant bulk == Updates(events[..i]) && tail == Tail(events[..i])
        invariant forall i :: 0 <= i < |bulk| ==> bulk[i].kind in {Create, Modify}
        invariant forall i :: 0 <= i < |tail| ==> tail[i].kind !in {Create, Modify} && WellShaped(tail[i])
      {
        assert events[..i + 1][..i] == events[..i];
        if events[i].kind in {Create, Modify} {
          bulk := bulk + [events[i]];
        } else {
          tail := tail + [events[i]];
        }
      }
      assert events[..|events|] == events;
    }

    method ApplyUpdates(disk: Disk, bulk: seq<Event>)
      requires indexer.Valid() && indexer.env == cfg.env
      requires forall i :: 0 <= i < |bulk| ==> bulk[i].kind in {Create, Modify}
      modifies indexer, indexer.embed
      ensures indexer.Valid() && Indexed() == ApplyAll(cfg.env, disk, old(Indexed()), bulk)
    {
      hide ApplyEvent, Project, IndexProofs.Sound;
      ghost var start := Indexed();
      for i := 0 to |bulk|
        invariant indexer.Valid() && Indexed() == ApplyAll(cfg.env, disk, start, bulk[..i])
      {
        assert bulk[..i + 1][..i] == bulk[..i];
        UpdateOne(disk, bulk[i]);
      }
      assert bulk[..|bulk|] == bulk;
    }

    method ApplyTail(disk: Disk, tail: seq<Event>)
      requires indexer.Valid() && indexer.env == cfg.env
      requires forall i :: 0 <= i < |tail| ==> tail[i].kind !in {Create, Modify} && WellShaped(tail[i])
      modifies indexer, indexer.embed
      ensures indexer.Valid() && Indexed() == ApplyAll(cfg.env, disk, old(Indexed()), tail)
    {
      hide ApplyEvent, Project, IndexProofs.Sound, WellShaped;
      ghost var start := Indexed();
      for i := 0 to |tail|
        invariant indexer.Valid() && Indexed() == ApplyAll(cfg.env, disk, start, tail[..i])
      {
        assert tail[..i + 1][..i] == tail[..i];
        TailOne(disk, tail[i]);
      }
      assert tail[..|tail|] == tail;
    }

    /** `_apply_events`: all updates in bulk first, then deletes and renames one by one. */
    method ApplyEvents(disk: Disk, events: seq<Event>)
      requires indexer.Valid() && indexer.env == cfg.env
      requires forall i :: 0 <= i < |events| ==> WellShaped(events[i])
      modifies indexer, indexer.embed
      ensures indexer.Valid()
      ensures Indexed() == ApplyAll(cfg.env, disk, old(Indexed()), Dispatched(events))
    {
      hide ApplyAll, Project, IndexProofs.Sound, WellShaped, Updates, Tail;
      ghost var start := Indexed();
      var bulk, tail := SplitEvents(events);
      ApplyUpdates(disk, bulk);
      ApplyTail(disk, tail);
      ApplyConcat(cfg.env, disk, start, bulk, tail);
    }

    /** `_drain_now` for one project; `expired` says the debounce of the first event is over. */
    method DrainNow(disk: Disk, rootExists: bool, expired: bool) returns (ghost order: seq<string>, ghost gone: seq<string>)
      requires Valid()
      modifies this, indexer, indexer.embed
      ensures Valid()
      // A flagged rescan indexes nothing; it queues what the walk finds, and is simply over when the root is missing.
      ensures old(rescanPending) ==> Indexed() == old(Indexed())
      ensures old(rescanPending) && !rootExists ==> queue == [] && !rescanPending
      ensures old(rescanPending) && rootExists ==>
                && WalkOrder(cfg, disk, Recorded(Indexed()), order, gone)
                && (queue, rescanPending)
                   == EnqueueAll([], false, WalkEvents(cfg, disk, Recorded(Indexed()), order, gone), cfg.capacity)
      // Otherwise an expired queue is emptied into the index, and an unexpired one is left alone.
      ensures !old(rescanPending) ==>
                && !rescanPending
                && queue == (if expired then [] else old(queue))
                && Indexed() == if expired && old(queue) != []
                                then ApplyBatch(cfg.env, disk, old(Indexed()), old(queue)) else old(Indexed())
    {
      hide ApplyAll, Project, IndexProofs.Sound, Coalesced, WalkOrder, WalkEvents, EnqueueAll, RecordedIn, Recorded;
      order, gone := [], [];
      var rescan := rescanPending;
      var events := if expired then queue else [];
      if events == [] && !rescan {
        return;
      }
      if expired {
        queue := [];
      }
      rescanPending := false;
      if rescan {
        RecordedIsProjected(indexer.View(), project);
        order, gone := MtimeWalk(disk, rootExists);
        if rootExists {
          FitsOrFlags(disk, order, gone);
        }
        return;
      }
      var coalesced := CoalesceEvents(events);
      WatchProofs.CoalescedShapes(events);
      ApplyEvents(disk, coalesced);
    }

    /** Queueing one walk keeps the queue within capacity and raw, and empty when a rescan is flagged. */
    lemma FitsOrFlags(disk: Disk, order: seq<string>, gone: seq<string>)
      requires WalkOrder(cfg, disk, Recorded(Indexed()), order, gone)
      ensures var (q, r) := EnqueueAll([], false, WalkEvents(cfg, disk, Recorded(Indexed()), order, gone), cfg.capacity);
              |q| <= cfg.capacity && AllRaw(q) && (r ==> q == [])
    {
      var es := WalkEvents(cfg, disk, Recorded(Indexed()), order, gone);
      WalkEventsAre(cfg, disk, Recorded(Indexed()), order, gone, "");
      EnqueueAllExact([], es, cfg.capacity);
      assert [] + es == es;
    }
  }
}
