/** Too much drift for the queue: rescans feed on themselves, and nothing is indexed any more, whatever else happens. */
module Starvation {
  import opened Prelude
  import opened Events
  import opened PathIndex
  import opened Watch
  import opened WatchProofs
  import opened Storm

  /** Paths that walks find new or newer than recorded, and paths that they find missing. */
  datatype Adrift = Adrift(drift: set<string>, gone: set<string>)

  function Size(a: Adrift): nat { |a.drift| + |a.gone| }

  ghost predicate AllDrift(cfg: Config, disk: Disk, idx: Paths, a: Adrift) {
    && (forall p :: p in a.drift ==> IsDrift(cfg, disk, Recorded(idx), p))
    && (forall p :: p in a.gone ==> IsGone(cfg, disk, Recorded(idx), p))
  }

  /** The walk has met all of `drift` or will, and comes nowhere near `gone`; and it has queued an event for each it has met
      or reported, or is about to, unless the queue has overflowed. */
  predicate Feeding(s: State, w: Walk, idx: Paths, a: Adrift) {
    && w.recorded == Recorded(idx) && a.drift <= w.todo + w.seen
    && a.gone <= w.recorded.Keys && a.gone !! w.todo + w.seen
    && (s.rescan || Counted(w, a) <= |s.queue| + if w.found.Some? && w.found.value in a.drift then 1 else 0)
  }

  function Counted(w: Walk, a: Adrift): nat { |a.drift * w.seen| + |a.gone * w.reported| }

  /** Between a flagged rescan and the next one. */
  ghost predicate Starved(cfg: Config, s: State, idx: Paths, a: Adrift) {
    && QueueInv(cfg, s) && s.index == idx
    && match s.worker
       case Idle => s.rescan
       case Ticket => true
       case Walking(w) => Feeding(s, w, idx, a)
       case Applying(_) => false
  }

  lemma OneMore(paths: set<string>, seen: set<string>, p: string)
    ensures |paths * (seen + {p})| <= |paths * seen| + if p in paths then 1 else 0
  {
    if p in paths {
      assert paths * (seen + {p}) == paths * seen + {p};
    } else {
      assert paths * (seen + {p}) == paths * seen;
    }
  }

  lemma QueuedFeeds(cfg: Config, s: State, s': State, e: Event, w: Walk, w': Walk, idx: Paths, a: Adrift)
    requires Feeding(s, w, idx, a) && s' == Queued(cfg, s, e)
    requires w' == w || w' == w.(found := None) || (w.found.None? && exists p :: w' == w.(reported := w.reported + {p}))
    ensures Feeding(s', w', idx, a)
  {
    if w'.reported != w.reported {
      var p :| w' == w.(reported := w.reported + {p});
      OneMore(a.gone, w.reported, p);
    }
    hide Recorded;
  }

  /** A walk that meets a path finds it, if it is one of them; one it misses is none of them. */
  lemma MetFeeds(s: State, w: Walk, w': Walk, p: string, idx: Paths, a: Adrift)
    requires Feeding(s, w, idx, a) && w.found.None? && w' == w.(todo := w'.todo, seen := w'.seen, found := w'.found)
    requires w.todo - {p} <= w'.todo && w.seen <= w'.seen <= w.seen + {p}
    requires w'.todo <= w.todo && p !in a.gone
    requires p in a.drift ==> p in w'.seen && w'.found == Some(p)
    ensures Feeding(s, w', idx, a)
  {
    hide Recorded;
    if p in a.drift {
      OneMore(a.drift, w.seen, p);
      assert w'.seen == w.seen + {p};
    } else {
      assert a.drift * w'.seen == a.drift * w.seen;
    }
  }

  lemma VisitFeeds(cfg: Config, s: State, step: Step, idx: Paths, a: Adrift)
    requires s.worker.Walking? && Feeding(s, s.worker.walk, idx, a) && AllDrift(cfg, s.disk, idx, a)
    requires (step.Visit? || step.Glimpse?) && step.who.ByWorker? && Possible(cfg, s, step)
    ensures var s' := Next(cfg, s, step); s'.worker.Walking? && Feeding(s, s'.worker.walk, idx, a)
  {
    hide Feeding, Recorded, AllDrift, Next;
    var w' := VisitMoves(cfg, s, step, idx, a);
    MetFeeds(s, s.worker.walk, w', step.path, idx, a);
  }

  lemma VisitMoves(cfg: Config, s: State, step: Step, idx: Paths, a: Adrift) returns (w': Walk)
    requires s.worker.Walking? && Feeding(s, s.worker.walk, idx, a) && AllDrift(cfg, s.disk, idx, a)
    requires (step.Visit? || step.Glimpse?) && step.who.ByWorker? && Possible(cfg, s, step)
    ensures var p, w := step.path, s.worker.walk;
            && Next(cfg, s, step).worker == Walking(w') && p !in a.gone
            && w' == w.(todo := w.todo - {p}, seen := w'.seen, found := w'.found) && w.seen <= w'.seen <= w.seen + {p}
            && (p in a.drift ==> p in w'.seen && w'.found == Some(p))
  {
    hide Recorded, Counted;
    var p, w := step.path, s.worker.walk;
    assert p in a.gone ==> IsGone(cfg, s.disk, Recorded(idx), p);
    assert p in a.drift ==> IsDrift(cfg, s.disk, Recorded(idx), p);
    w' := Next(cfg, s, step).worker.walk;
  }

  /** A rescan that begins has everything still to meet. */
  lemma WalkStartFeeds(cfg: Config, s: State, a: Adrift)
    requires AllDrift(cfg, s.disk, s.index, a)
    ensures Feeding(s, BeginWalk(cfg, s), s.index, a)
  {
    var w := BeginWalk(cfg, s);
    forall p | p in a.drift ensures p in w.todo {
      assert IsDrift(cfg, s.disk, Recorded(s.index), p);
    }
    forall p | p in a.gone ensures p in w.recorded && p !in w.todo {
      assert IsGone(cfg, s.disk, Recorded(s.index), p);
    }
    assert w.recorded == Recorded(s.index);
    assert a.drift * w.seen == {} && a.gone * w.reported == {};
    hide BeginWalk;
  }

  lemma QueueFits(cfg: Config, s: State)
    requires QueueInv(cfg, s)
    ensures |s.queue| <= cfg.capacity
  {
  }

  /** One that ends has overflowed the queue. */
  lemma WalkFinishStarves(cfg: Config, s: State, idx: Paths, a: Adrift)
    requires Starved(cfg, s, idx, a) && Size(a) > cfg.capacity && Possible(cfg, s, WalkFinish(ByWorker))
    ensures s.rescan
  {
    hide QueueInv, Recorded;
    assert |s.queue| <= cfg.capacity by {
      QueueFits(cfg, s);
    }
    assert a.drift * s.worker.walk.seen == a.drift && a.gone * s.worker.walk.reported == a.gone;
  }

  lemma VisitStarves(cfg: Config, s: State, step: Step, idx: Paths, a: Adrift)
    requires Starved(cfg, s, idx, a) && AllDrift(cfg, s.disk, idx, a)
    requires Possible(cfg, s, step) && (step.Visit? || step.Glimpse?) && QueueInv(cfg, Next(cfg, s, step))
    ensures Starved(cfg, Next(cfg, s, step), idx, a)
  {
    hide QueueInv, AllDrift, Feeding;
    var s' := Next(cfg, s, step);
    VisitOnlyMoves(cfg, s, step);
    if step.who.ByWorker? {
      VisitFeeds(cfg, s, step, idx, a);
      SameFeeding(s, s', s'.worker.walk, idx, a);
    } else if s.worker.Walking? {
      SameFeeding(s, s', s.worker.walk, idx, a);
    }
    hide Next, Possible;
  }

  lemma VisitOnlyMoves(cfg: Config, s: State, step: Step)
    requires Possible(cfg, s, step) && (step.Visit? || step.Glimpse?)
    ensures var s' := Next(cfg, s, step);
            && s'.queue == s.queue && s'.rescan == s.rescan && s'.index == s.index
            && if step.who.ByWorker? then s.worker.Walking? && s'.worker.Walking? else s'.worker == s.worker
  {
    hide Drifted;
  }

  lemma SameFeeding(s: State, s': State, w: Walk, idx: Paths, a: Adrift)
    requires s'.queue == s.queue && s'.rescan == s.rescan
    ensures Feeding(s', w, idx, a) == Feeding(s, w, idx, a)
  {
  }

  lemma WalkStartStarves(cfg: Config, s: State, who: Who, idx: Paths, a: Adrift)
    requires Starved(cfg, s, idx, a) && AllDrift(cfg, s.disk, idx, a)
    requires Possible(cfg, s, WalkStart(who)) && QueueInv(cfg, Next(cfg, s, WalkStart(who)))
    ensures Starved(cfg, Next(cfg, s, WalkStart(who)), idx, a)
  {
    WalkStartFeeds(cfg, s, a);
    hide BeginWalk, Recorded, QueueInv, AllDrift;
  }

  lemma WalkEndStarves(cfg: Config, s: State, step: Step, idx: Paths, a: Adrift)
    requires Starved(cfg, s, idx, a) && AllDrift(cfg, s.disk, idx, a) && Size(a) > cfg.capacity
    requires step.WalkSkip? ==> a.drift != {}
    requires Possible(cfg, s, step) && (step.WalkFinish? || step.WalkSkip?) && QueueInv(cfg, Next(cfg, s, step))
    ensures Starved(cfg, Next(cfg, s, step), idx, a)
  {
    if step.WalkFinish? && step.who.ByWorker? {
      WalkFinishStarves(cfg, s, idx, a);
    }
    hide Recorded, QueueInv, AllDrift;
  }

  lemma QueuedStarves(cfg: Config, s: State, s1: State, e: Event, idx: Paths, a: Adrift)
    requires Starved(cfg, s, idx, a) && QueueInv(cfg, Queued(cfg, s1, e))
    requires s1.queue == s.queue && s1.rescan == s.rescan && s1.index == s.index
    requires || s1.worker == s.worker
             || (s.worker.Walking? && s1.worker == Walking(s.worker.walk.(found := None)))
             || (s.worker.Walking? && s.worker.walk.found.None?
                 && exists p :: s1.worker == Walking(s.worker.walk.(reported := s.worker.walk.reported + {p})))
    ensures Starved(cfg, Queued(cfg, s1, e), idx, a)
  {
    hide QueueInv, Recorded;
    if s.worker.Walking? {
      QueuedFeeds(cfg, s, Queued(cfg, s, e), e, s.worker.walk, s1.worker.walk, idx, a);
    }
  }

  lemma StepStarves(cfg: Config, s: State, step: Step, idx: Paths, a: Adrift)
    requires Starved(cfg, s, idx, a) && AllDrift(cfg, s.disk, idx, a) && Size(a) > cfg.capacity
    requires Possible(cfg, s, step) && !step.ReAdd? && (step.WalkSkip? ==> a.drift != {})
    ensures Starved(cfg, Next(cfg, s, step), idx, a)
  {
    StepKeepsQueue(cfg, s, step);
    match step
    case Deliver(e) => QueuedStarves(cfg, s, s.(batch := s.batch - {e}), e, idx, a);
    case Report(who) =>
      QueuedStarves(cfg, s, Told(s, who), DriftEvent(WalkOf(s, who).recorded, WalkOf(s, who).found.value), idx, a);
    case ReportGone(who, q) => QueuedStarves(cfg, s, ReportedGone(s, who, q), Event(Delete, q, None), idx, a);
    case Write(_, _, _) => hide QueueInv, AllDrift, Recorded;
    case Remove(_, _) => hide QueueInv, AllDrift, Recorded;
    case Collect => hide QueueInv, AllDrift, Recorded;
    case DrainBegin(_) => hide QueueInv, AllDrift, Recorded;
    case Visit(_, _) => VisitStarves(cfg, s, step, idx, a);
    case Glimpse(_, _) => VisitStarves(cfg, s, step, idx, a);
    case WalkStart(who) => WalkStartStarves(cfg, s, who, idx, a);
    case ApplyNext => // the worker never gets that far
    case _ => WalkEndStarves(cfg, s, step, idx, a);
  }

  /** Once a rescan is flagged with the worker idle, and as long as more paths stay new, newer than recorded or missing than
      the queue holds, no step of any run changes the index, whatever else is written, removed, noticed or swept: unless a
      project is added again, or all are missing and so is the root. */
  lemma {:induction false} RunStarves(cfg: Config, states: seq<State>, steps: seq<Step>, a: Adrift, n: nat)
    requires Run(cfg, states, steps) && n <= |steps| && Size(a) > cfg.capacity
    requires QueueInv(cfg, states[0]) && states[0].rescan && states[0].worker.Idle?
    requires forall i :: 0 <= i < n ==> !steps[i].ReAdd? && (steps[i].WalkSkip? ==> a.drift != {})
    requires forall i :: 0 <= i < n ==> AllDrift(cfg, states[i].disk, states[0].index, a)
    ensures Starved(cfg, states[n], states[0].index, a)
    decreases n
  {
    hide QueueInv, AllDrift, Next;
    if n > 0 {
      RunStarves(cfg, states, steps, a, n - 1);
      assert AllDrift(cfg, states[n - 1].disk, states[0].index, a);
      StepStarves(cfg, states[n - 1], steps[n - 1], states[0].index, a);
    } else {
      hide Feeding;
    }
  }

  /** In particular while more files than the queue holds lie where walks meet them and are not indexed: files that the
      filter chain rejects never are. */
  lemma RejectedFilesStarve(cfg: Config, states: seq<State>, steps: seq<Step>, files: set<string>, n: nat)
    requires Run(cfg, states, steps) && n <= |steps| && |files| > cfg.capacity
    requires QueueInv(cfg, states[0]) && states[0].rescan && states[0].worker.Idle? && files !! states[0].index.Keys
    requires forall i :: 0 <= i < n ==> !steps[i].ReAdd?
    requires forall i, p :: 0 <= i < n && p in files ==> p in states[i].disk && cfg.walkable(p)
    ensures states[n].index == states[0].index && !Quiescent(states[n])
  {
    hide QueueInv, Starved, Next;
    var a := Adrift(files, {});
    forall i | 0 <= i < n ensures AllDrift(cfg, states[i].disk, states[0].index, a) {
    }
    hide AllDrift;
    RunStarves(cfg, states, steps, a, n);
    StarvedIsBusy(cfg, states[n], states[0].index, a);
  }

  lemma StarvedIsBusy(cfg: Config, s: State, idx: Paths, a: Adrift)
    requires Starved(cfg, s, idx, a)
    ensures s.index == idx && !Quiescent(s)
  {
    hide QueueInv, Feeding;
  }
}
