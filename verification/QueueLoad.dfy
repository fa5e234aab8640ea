/** How much the queue may still have to hold: what waits to be queued, and what the walks will report. */
module QueueLoad {
  import opened Prelude
  import opened Events
  import opened PathIndex
  import opened Watch
  import opened Storm

  /** Everything the watcher does by itself: no change on disk, no project added, no new periodic walk. */
  predicate Working(step: Step) {
    !step.Write? && !step.Remove? && !step.ReAdd? && step != WalkStart(BySweep)
  }

  // ---------------------------------------------------------------- what may still be queued

  /** The paths a walk may still find new or newer, and those it may still report gone. A recorded file that is still to be
      met is not among the latter. */
  function DriftLeft(cfg: Config, disk: Disk, w: Walk): set<string> {
    set p | p in disk && p !in w.seen && (p in w.todo || cfg.walkable(p)) && Drifted(w, disk, p)
  }

  function GoneLeft(disk: Disk, w: Walk): set<string> {
    set p | p in w.recorded && p !in w.seen && p !in w.reported && !(p in w.todo && p in disk)
  }

  function WalkLoad(cfg: Config, disk: Disk, w: Walk): nat {
    |DriftLeft(cfg, disk, w)| + (if w.found.Some? then 1 else 0) + |GoneLeft(disk, w)|
  }

  /** What a whole walk would report. */
  function RoundLoad(cfg: Config, disk: Disk, idx: Paths): nat { |DriftSet(cfg, disk, Recorded(idx))| }

  function WorkerLoad(cfg: Config, s: State): nat {
    match s.worker
    case Ticket => RoundLoad(cfg, s.disk, s.index)
    case Walking(w) => WalkLoad(cfg, s.disk, w)
    case _ => 0
  }

  function SweepLoad(cfg: Config, s: State): nat {
    match s.sweep
    case None => 0
    case Some(w) => WalkLoad(cfg, s.disk, w)
  }

  /** A flagged rescan comes after the batch in flight, of which each event may set two paths adrift. */
  function RescanLoad(cfg: Config, s: State): nat {
    if s.rescan then RoundLoad(cfg, s.disk, s.index) + 2 * |InFlight(s)| else 0
  }

  /** An upper bound on the events the queue will ever hold at once if the disk stands still. */
  function Load(cfg: Config, s: State): nat {
    |s.pending| + |s.batch| + |s.queue| + WorkerLoad(cfg, s) + SweepLoad(cfg, s) + RescanLoad(cfg, s)
  }

  // ---------------------------------------------------------------- the walks

  /** What a step makes of the walk that takes it. */
  function Moved(s: State, step: Step): Walk
    requires step.Visit? || step.Glimpse? || step.Report? || step.ReportGone?
    requires Running(s, step.who)
  {
    var w := WalkOf(s, step.who);
    match step
    case Visit(_, p) =>
      if p !in s.disk then w.(todo := w.todo - {p})
      else w.(todo := w.todo - {p}, seen := w.seen + {p}, found := if Drifted(w, s.disk, p) then Some(p) else None)
    case Glimpse(_, p) => w.(todo := w.todo - {p}, seen := w.seen + {p})
    case Report(_) => w.(found := None)
    case ReportGone(_, p) => w.(reported := w.reported + {p})
  }

  /** The event it queues, if it queues one. */
  function Telling(s: State, step: Step): Event
    requires step.Report? || step.ReportGone?
    requires Running(s, step.who) && (step.Report? ==> WalkOf(s, step.who).found.Some?)
  {
    var w := WalkOf(s, step.who);
    if step.Report? then DriftEvent(w.recorded, w.found.value) else Event(Delete, step.path, None)
  }

  lemma WalkNext(cfg: Config, s: State, step: Step)
    requires Possible(cfg, s, step) && (step.Visit? || step.Glimpse? || step.Report? || step.ReportGone?)
    ensures var moved := SetWalk(s, step.who, Moved(s, step));
            Next(cfg, s, step) == if step.Visit? || step.Glimpse? then moved else Queued(cfg, moved, Telling(s, step))
  {
    hide Drifted;
  }

  lemma SetWalkLoad(cfg: Config, s: State, who: Who, w': Walk)
    requires Running(s, who)
    ensures Load(cfg, SetWalk(s, who, w')) + WalkLoad(cfg, s.disk, WalkOf(s, who)) == Load(cfg, s) + WalkLoad(cfg, s.disk, w')
  {
    hide WalkLoad, RoundLoad;
  }

  /** Meeting a path, a walk has no more to report than before: what it finds there it was expected to find. */
  lemma MeetLoad(cfg: Config, s: State, step: Step)
    requires Possible(cfg, s, step) && (step.Visit? || step.Glimpse?)
    ensures WalkLoad(cfg, s.disk, Moved(s, step)) <= WalkLoad(cfg, s.disk, WalkOf(s, step.who))
  {
    var p, w, w' := step.path, WalkOf(s, step.who), Moved(s, step);
    var drift, drift' := DriftLeft(cfg, s.disk, w), DriftLeft(cfg, s.disk, w');
    assert drift' <= drift;
    if w'.found.Some? {
      assert p in drift && p !in drift';
      FewerLeft(drift, drift', p);
    } else {
      NoMoreLeft(drift', drift);
    }
    assert GoneLeft(s.disk, w') <= GoneLeft(s.disk, w);
    NoMoreLeft(GoneLeft(s.disk, w'), GoneLeft(s.disk, w));
  }

  /** Telling something, it has one less to tell. */
  lemma TellLoad(cfg: Config, s: State, step: Step)
    requires Possible(cfg, s, step) && (step.Report? || step.ReportGone?)
    ensures WalkLoad(cfg, s.disk, Moved(s, step)) + 1 <= WalkLoad(cfg, s.disk, WalkOf(s, step.who))
  {
    var w, w' := WalkOf(s, step.who), Moved(s, step);
    assert DriftLeft(cfg, s.disk, w') == DriftLeft(cfg, s.disk, w);
    if step.ReportGone? {
      assert step.path in GoneLeft(s.disk, w) && step.path !in GoneLeft(s.disk, w');
      FewerLeft(GoneLeft(s.disk, w), GoneLeft(s.disk, w'), step.path);
    } else {
      assert GoneLeft(s.disk, w') == GoneLeft(s.disk, w);
    }
  }

  /** A walk that begins has to report what has drifted or is missing. */
  lemma BeginLoad(cfg: Config, s: State)
    ensures WalkLoad(cfg, s.disk, BeginWalk(cfg, s)) == RoundLoad(cfg, s.disk, s.index)
  {
    BeginDrift(cfg, s);
    var drift, gone := DriftLeft(cfg, s.disk, BeginWalk(cfg, s)), GoneLeft(s.disk, BeginWalk(cfg, s));
    hide DriftLeft, GoneLeft, DriftSet;
    assert |drift + gone| == |drift| + |gone|;
  }

  lemma BeginDrift(cfg: Config, s: State)
    ensures var w := BeginWalk(cfg, s);
            && DriftSet(cfg, s.disk, Recorded(s.index)) == DriftLeft(cfg, s.disk, w) + GoneLeft(s.disk, w)
            && DriftLeft(cfg, s.disk, w) !! GoneLeft(s.disk, w)
  {
    assert BeginWalk(cfg, s).recorded == Recorded(s.index);
  }

  // ---------------------------------------------------------------- the load never rises

  /** While the load fits, an event more is queued, or dropped for a rescan that was flagged before. */
  lemma QueuedLoad(cfg: Config, s: State, e: Event)
    requires Load(cfg, s) < cfg.capacity
    ensures var s' := Queued(cfg, s, e);
            s' == s.(queue := s'.queue) && |s.queue| <= |s'.queue| <= |s.queue| + 1 && Load(cfg, s') <= Load(cfg, s) + 1
  {
    hide RoundLoad, WalkLoad;
    var s' := Queued(cfg, s, e);
    assert s' == s.(queue := s'.queue);
    assert InFlight(s') == InFlight(s);
  }

  lemma WalkLoadFalls(cfg: Config, s: State, step: Step)
    requires Possible(cfg, s, step) && Load(cfg, s) <= cfg.capacity
    requires step.Visit? || step.Glimpse? || step.Report? || step.ReportGone?
    ensures Load(cfg, Next(cfg, s, step)) <= Load(cfg, s)
  {
    hide Load, WalkLoad, Next, Moved, Telling, Queued;
    WalkNext(cfg, s, step);
    SetWalkLoad(cfg, s, step.who, Moved(s, step));
    if step.Visit? || step.Glimpse? {
      MeetLoad(cfg, s, step);
    } else {
      TellLoad(cfg, s, step);
      QueuedLoad(cfg, SetWalk(s, step.who, Moved(s, step)), Telling(s, step));
    }
  }

  lemma DeliverTakes(cfg: Config, s: State, e: Event)
    requires e in s.batch
    ensures Load(cfg, s.(batch := s.batch - {e})) + 1 == Load(cfg, s)
  {
    hide RoundLoad, WalkLoad;
    var s1 := s.(batch := s.batch - {e});
    assert |s.batch| == |s1.batch| + 1 && InFlight(s1) == InFlight(s);
  }

  /** An event sets no path adrift but those it mentions. */
  lemma ApplyDrift(cfg: Config, s: State, e: Event)
    ensures RoundLoad(cfg, s.disk, ApplyEvent(cfg.env, s.disk, s.index, e)) <= RoundLoad(cfg, s.disk, s.index) + 2
  {
    hide ApplyEvent, DriftSet, Recorded;
    var idx := ApplyEvent(cfg.env, s.disk, s.index, e);
    var before, after := DriftSet(cfg, s.disk, Recorded(s.index)), DriftSet(cfg, s.disk, Recorded(idx));
    var touched := {e.path} + if e.oldPath.Some? then {e.oldPath.value} else {};
    forall p | p in after ensures p in before + touched {
      if p !in touched {
        EventFrame(cfg.env, s.disk, s.index, e, p);
        SameDrift(cfg, s.disk, s.index, idx, p);
      }
    }
    NoMoreLeft(after, before + touched);
    assert |before + touched| <= |before| + |touched|;
  }

  lemma SameDrift(cfg: Config, disk: Disk, idx: Paths, idx': Paths, p: string)
    requires Get(idx', p) == Get(idx, p)
    ensures p in DriftSet(cfg, disk, Recorded(idx')) <==> p in DriftSet(cfg, disk, Recorded(idx))
  {
  }

  lemma ApplyLoad(cfg: Config, s: State)
    requires Possible(cfg, s, ApplyNext)
    ensures Load(cfg, Next(cfg, s, ApplyNext)) <= Load(cfg, s)
  {
    hide ApplyEvent, WalkLoad, RoundLoad;
    if s.worker.events != [] {
      ApplyDrift(cfg, s, s.worker.events[0]);
    }
  }

  lemma DrainLoad(cfg: Config, s: State, expired: bool)
    requires QueueInv(cfg, s) && Possible(cfg, s, DrainBegin(expired))
    ensures Load(cfg, Next(cfg, s, DrainBegin(expired))) <= Load(cfg, s)
  {
    hide Coalesced, Dispatched, WalkLoad, RoundLoad;
  }

  lemma WalkStartLoad(cfg: Config, s: State)
    requires Possible(cfg, s, WalkStart(ByWorker))
    ensures Load(cfg, Next(cfg, s, WalkStart(ByWorker))) <= Load(cfg, s)
  {
    hide WalkLoad, RoundLoad, BeginWalk;
    BeginLoad(cfg, s);
  }

  lemma WalkEndLoad(cfg: Config, s: State, step: Step)
    requires Possible(cfg, s, step) && (step.WalkSkip? || step.WalkFinish? || step.Collect?)
    ensures Load(cfg, Next(cfg, s, step)) <= Load(cfg, s)
  {
    hide WalkLoad, RoundLoad;
  }

  /** Left alone, the watcher never has more to queue than before, as long as it fits. */
  lemma LoadNeverRises(cfg: Config, s: State, step: Step)
    requires QueueInv(cfg, s) && Possible(cfg, s, step) && Working(step) && Load(cfg, s) <= cfg.capacity
    ensures Load(cfg, Next(cfg, s, step)) <= Load(cfg, s)
  {
    hide Load, QueueInv;
    match step
    case Deliver(e) =>
      DeliverTakes(cfg, s, e);
      QueuedLoad(cfg, s.(batch := s.batch - {e}), e);
    case DrainBegin(expired) => DrainLoad(cfg, s, expired);
    case ApplyNext => ApplyLoad(cfg, s);
    case WalkStart(_) => WalkStartLoad(cfg, s);
    case Visit(_, _) => WalkLoadFalls(cfg, s, step);
    case Glimpse(_, _) => WalkLoadFalls(cfg, s, step);
    case Report(_) => WalkLoadFalls(cfg, s, step);
    case ReportGone(_, _) => WalkLoadFalls(cfg, s, step);
    case _ => WalkEndLoad(cfg, s, step);
  }
}
