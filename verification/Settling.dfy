/** Once the disk stands still the watcher comes to rest, whatever it does first, and then index and disk agree. */
module Settling {
  import opened Prelude
  import opened Records
  import opened Events
  import opened PathIndex
  import opened Watch
  import opened WatchProofs
  import opened OrderlyRuns
  import opened QueueLoad

  // ---------------------------------------------------------------- how much is left to do

  function Walkable(cfg: Config, disk: Disk): set<string> { set p | p in disk && cfg.walkable(p) }

  /** The paths a walk may still come to, and those it may still report gone. */
  function ToMeet(cfg: Config, disk: Disk, w: Walk): set<string> { w.todo + Walkable(cfg, disk) - w.seen }

  function ToReport(w: Walk): set<string> { w.recorded.Keys - w.seen - w.reported }

  function WalkWork(cfg: Config, disk: Disk, w: Walk): nat {
    5 * |ToMeet(cfg, disk, w)| + (if w.found.Some? then 4 else 0) + 4 * |ToReport(w)| + 1
  }

  function WorkerWork(cfg: Config, s: State): nat {
    match s.worker
    case Idle => 0
    case Applying(events) => |events| + 1
    case Ticket => 5 * |Walkable(cfg, s.disk)| + 4 * |s.index| + 2
    case Walking(w) => WalkWork(cfg, s.disk, w)
  }

  function SweepWork(cfg: Config, s: State): nat {
    match s.sweep
    case None => 0
    case Some(w) => WalkWork(cfg, s.disk, w)
  }

  /** A flagged rescan stands for a whole walk, also over what the batch in flight may add to the index. */
  function RescanWork(cfg: Config, s: State): nat {
    if s.rescan then 5 * |Walkable(cfg, s.disk)| + 4 * (|s.index| + |InFlight(s)|) + 3 else 0
  }

  /** An upper bound on the steps that are left; each event weighs more the further it still has to go. */
  function Work(cfg: Config, s: State): nat {
    5 * |s.pending| + 4 * |s.batch| + 3 * |s.queue| + WorkerWork(cfg, s) + SweepWork(cfg, s) + RescanWork(cfg, s)
  }

  // ---------------------------------------------------------------- coalescing makes no work

  lemma {:induction false} OrderAtMost(es: seq<Event>)
    ensures |Order(es)| <= |es|
    decreases |es|
  {
    if es != [] {
      OrderAtMost(es[..|es| - 1]);
    }
  }

  lemma {:induction false} EmitAtMost(es: seq<Event>, order: seq<string>)
    requires forall p :: p in order ==> p in Order(es)
    ensures |Emit(es, order)| <= |order|
    decreases |order|
  {
    hide Order, EventFor;
    if order != [] {
      EmitAtMost(es, order[..|order| - 1]);
    }
  }

  lemma {:induction false} DispatchSize(es: seq<Event>)
    ensures |Dispatched(es)| == |es|
    decreases |es|
  {
    if es != [] {
      DispatchSize(es[..|es| - 1]);
    }
  }

  lemma CoalescedAtMost(es: seq<Event>)
    ensures |Dispatched(Coalesced(es))| <= |es|
  {
    hide Emit, Order, Dispatched;
    OrderAtMost(es);
    EmitAtMost(es, Order(es));
    DispatchSize(Coalesced(es));
  }

  // ---------------------------------------------------------------- every step leaves less

  lemma IndexGrowth(env: Env, disk: Disk, idx: Paths, e: Event)
    ensures |ApplyEvent(env, disk, idx, e)| <= |idx| + 1
  {
    var after := ApplyEvent(env, disk, idx, e);
    assert after.Keys <= idx.Keys + {e.path};
    NoMoreLeft(after.Keys, idx.Keys + {e.path});
    assert |after| == |after.Keys| && |idx| == |idx.Keys|;
  }

  /** Queueing one event costs three, as long as it fits. */
  lemma QueuedWork(cfg: Config, s: State, e: Event)
    requires Load(cfg, s) < cfg.capacity
    ensures Work(cfg, Queued(cfg, s, e)) <= Work(cfg, s) + 3
  {
    hide WalkWork, Walkable, Load, Queued;
    QueuedLoad(cfg, s, e);
    assert InFlight(Queued(cfg, s, e)) == InFlight(s);
  }

  /** Moving on, a walk has less to meet; queueing what it found, less to tell. */
  lemma WalkOnWork(cfg: Config, disk: Disk, w: Walk, w': Walk, p: string)
    requires w'.recorded == w.recorded && w'.reported == w.reported && w.found.None? && p !in w.seen
    requires p in w.todo || (p in disk && cfg.walkable(p))
    requires w'.todo == w.todo - {p}
    requires (w'.seen == w.seen + {p}) || (w'.seen == w.seen && w'.found.None? && p !in disk)
    ensures WalkWork(cfg, disk, w') < WalkWork(cfg, disk, w)
  {
    FewerLeft(ToMeet(cfg, disk, w), ToMeet(cfg, disk, w'), p);
    NoMoreLeft(ToReport(w'), ToReport(w));
  }

  /** A walk that goes from `w` to `w'` changes the work left by as much. */
  lemma SetWalkWork(cfg: Config, s: State, who: Who, w': Walk)
    requires Running(s, who)
    ensures Work(cfg, SetWalk(s, who, w')) + WalkWork(cfg, s.disk, WalkOf(s, who)) == Work(cfg, s) + WalkWork(cfg, s.disk, w')
  {
    hide WalkWork, Walkable;
  }

  lemma WalkFalls(cfg: Config, s: State, step: Step)
    requires Possible(cfg, s, step) && Load(cfg, s) <= cfg.capacity
    requires step.Visit? || step.Glimpse? || step.Report? || step.ReportGone?
    ensures Work(cfg, Next(cfg, s, step)) < Work(cfg, s)
  {
    var w, w' := WalkOf(s, step.who), Moved(s, step);
    hide Load, Work, WalkWork, WalkLoad, Next, Telling, Queued;
    WalkNext(cfg, s, step);
    SetWalkWork(cfg, s, step.who, w');
    if step.Visit? || step.Glimpse? {
      WalkOnWork(cfg, s.disk, w, w', step.path);
    } else {
      TellWork(cfg, s, step);
      TellLoad(cfg, s, step);
      SetWalkLoad(cfg, s, step.who, w');
      QueuedWork(cfg, SetWalk(s, step.who, w'), Telling(s, step));
    }
  }

  lemma TellWork(cfg: Config, s: State, step: Step)
    requires Possible(cfg, s, step) && (step.Report? || step.ReportGone?)
    ensures WalkWork(cfg, s.disk, Moved(s, step)) + 4 <= WalkWork(cfg, s.disk, WalkOf(s, step.who))
  {
    if step.ReportGone? {
      FewerLeft(ToReport(WalkOf(s, step.who)), ToReport(Moved(s, step)), step.path);
    }
  }

  lemma DrainFalls(cfg: Config, s: State, expired: bool)
    requires QueueInv(cfg, s) && Possible(cfg, s, DrainBegin(expired))
    ensures Work(cfg, Next(cfg, s, DrainBegin(expired))) < Work(cfg, s)
  {
    CoalescedAtMost(s.queue);
    hide Coalesced, Dispatched, WalkWork, Walkable;
  }

  lemma WalkBeginsWithLess(cfg: Config, s: State)
    requires s.worker.Ticket?
    ensures WalkWork(cfg, s.disk, BeginWalk(cfg, s)) < WorkerWork(cfg, s)
  {
    BeginSets(cfg, s);
    assert |s.index| == |s.index.Keys|;
    hide ToMeet, ToReport, Walkable;
  }

  lemma BeginSets(cfg: Config, s: State)
    ensures ToMeet(cfg, s.disk, BeginWalk(cfg, s)) == Walkable(cfg, s.disk)
    ensures ToReport(BeginWalk(cfg, s)) == s.index.Keys && BeginWalk(cfg, s).found.None?
  {
    assert BeginWalk(cfg, s).todo == Walkable(cfg, s.disk);
    hide Walkable;
  }

  lemma WalkStartFalls(cfg: Config, s: State)
    requires Possible(cfg, s, WalkStart(ByWorker))
    ensures Work(cfg, Next(cfg, s, WalkStart(ByWorker))) < Work(cfg, s)
  {
    hide WalkWork, Walkable, BeginWalk, WorkerWork, Work;
    WalkBeginsWithLess(cfg, s);
    var s' := s.(worker := Walking(BeginWalk(cfg, s)));
    assert InFlight(s') == InFlight(s);
    assert WorkerWork(cfg, s') == WalkWork(cfg, s.disk, BeginWalk(cfg, s)) by {
      WalkingWork(cfg, s');
    }
    WorkerWorkOnly(cfg, s, s');
  }

  lemma WalkingWork(cfg: Config, s: State)
    requires s.worker.Walking?
    ensures WorkerWork(cfg, s) == WalkWork(cfg, s.disk, s.worker.walk)
  {
  }

  lemma WorkerWorkOnly(cfg: Config, s: State, s': State)
    requires s' == s.(worker := s'.worker) && InFlight(s') == InFlight(s)
    ensures Work(cfg, s') + WorkerWork(cfg, s) == Work(cfg, s) + WorkerWork(cfg, s')
  {
    hide WorkerWork, WalkWork, Walkable, InFlight;
  }

  lemma CollectFalls(cfg: Config, s: State)
    requires Possible(cfg, s, Collect)
    ensures Work(cfg, Next(cfg, s, Collect)) < Work(cfg, s)
  {
    hide WalkWork, Walkable;
    assert |s.pending| > 0;
  }

  lemma WalkEndFalls(cfg: Config, s: State, step: Step)
    requires Possible(cfg, s, step) && (step.WalkSkip? || step.WalkFinish?)
    ensures Work(cfg, Next(cfg, s, step)) < Work(cfg, s)
  {
    hide Walkable, ToMeet, ToReport;
  }

  lemma ApplyFalls(cfg: Config, s: State)
    requires Possible(cfg, s, ApplyNext)
    ensures Work(cfg, Next(cfg, s, ApplyNext)) < Work(cfg, s)
  {
    hide ApplyEvent, WalkWork, Walkable;
    if s.worker.events != [] {
      IndexGrowth(cfg.env, s.disk, s.index, s.worker.events[0]);
    }
  }

  lemma DeliverFalls(cfg: Config, s: State, e: Event)
    requires Possible(cfg, s, Deliver(e)) && Load(cfg, s) <= cfg.capacity
    ensures Work(cfg, Next(cfg, s, Deliver(e))) < Work(cfg, s)
  {
    var s1 := s.(batch := s.batch - {e});
    assert Work(cfg, s1) + 4 == Work(cfg, s) by {
      hide WalkWork, Walkable;
      assert InFlight(s1) == InFlight(s);
      assert |s.batch| == |s1.batch| + 1;
    }
    hide Work, Load;
    DeliverTakes(cfg, s, e);
    QueuedWork(cfg, s1, e);
  }

  /** As long as what is still to be queued fits, every step of the watcher leaves less to do. */
  lemma WorkFalls(cfg: Config, s: State, step: Step)
    requires QueueInv(cfg, s) && Possible(cfg, s, step) && Working(step) && Load(cfg, s) <= cfg.capacity
    ensures Work(cfg, Next(cfg, s, step)) < Work(cfg, s)
  {
    hide Work, Load, Next, QueueInv;
    match step
    case Collect => CollectFalls(cfg, s);
    case Deliver(e) => DeliverFalls(cfg, s, e);
    case DrainBegin(expired) => DrainFalls(cfg, s, expired);
    case ApplyNext => ApplyFalls(cfg, s);
    case WalkStart(_) => WalkStartFalls(cfg, s);
    case Visit(_, _) => WalkFalls(cfg, s, step);
    case Glimpse(_, _) => WalkFalls(cfg, s, step);
    case Report(_) => WalkFalls(cfg, s, step);
    case ReportGone(_, _) => WalkFalls(cfg, s, step);
    case WalkSkip => WalkEndFalls(cfg, s, step);
    case WalkFinish(_) => WalkEndFalls(cfg, s, step);
  }

  // ---------------------------------------------------------------- and only rest leaves none

  /** A walk does not expect to meet what it has met. */
  predicate Sane(s: State) {
    && (s.worker.Walking? ==> s.worker.walk.todo !! s.worker.walk.seen)
    && (s.sweep.Some? ==> s.sweep.value.todo !! s.sweep.value.seen)
  }

  lemma StepKeepsSane(cfg: Config, s: State, step: Step)
    requires Sane(s) && Possible(cfg, s, step)
    ensures Sane(Next(cfg, s, step))
  {
    hide ApplyEvent, Coalesced, Dispatched, Drifted;
  }

  /** If anything waits anywhere, or a walk runs, there is a step to take. */
  lemma WorkGoesOn(cfg: Config, s: State) returns (step: Step)
    requires Sane(s) && (!Quiescent(s) || s.sweep.Some?)
    ensures Possible(cfg, s, step) && Working(step)
  {
    if s.worker.Walking? {
      step := WalkGoesOn(cfg, s, ByWorker);
    } else if s.sweep.Some? {
      step := WalkGoesOn(cfg, s, BySweep);
    } else if s.worker.Applying? {
      step := ApplyNext;
    } else if s.worker.Ticket? {
      step := WalkStart(ByWorker);
    } else if s.batch != {} {
      var e :| e in s.batch;
      step := Deliver(e);
    } else if s.pending != {} {
      step := Collect;
    } else {
      step := DrainBegin(true);
    }
  }

  lemma WalkGoesOn(cfg: Config, s: State, who: Who) returns (step: Step)
    requires Sane(s) && Running(s, who)
    ensures Possible(cfg, s, step) && Working(step)
  {
    var w := WalkOf(s, who);
    if w.found.Some? {
      step := Report(who);
    } else if w.todo != {} {
      var p :| p in w.todo;
      step := Visit(who, p);
    } else if w.recorded.Keys <= w.seen + w.reported {
      step := WalkFinish(who);
    } else {
      var p :| p in w.recorded && p !in w.seen + w.reported;
      step := ReportGone(who, p);
    }
  }

  // ---------------------------------------------------------------- coming to rest

  ghost predicate Undisturbed(cfg: Config, states: seq<State>, steps: seq<Step>) {
    Run(cfg, states, steps) && forall i :: 0 <= i < |steps| ==> Working(steps[i])
  }

  /** Nothing more can happen by itself. */
  ghost predicate AtRest(cfg: Config, s: State) {
    forall step :: Possible(cfg, s, step) ==> !Working(step)
  }

  lemma {:induction false} WorkBounds(cfg: Config, states: seq<State>, steps: seq<Step>, n: nat)
    requires Undisturbed(cfg, states, steps) && n <= |steps|
    requires QueueInv(cfg, states[0]) && Sane(states[0]) && Load(cfg, states[0]) <= cfg.capacity
    ensures n + Work(cfg, states[n]) <= Work(cfg, states[0])
    ensures QueueInv(cfg, states[n]) && Sane(states[n]) && states[n].disk == states[0].disk
    ensures Load(cfg, states[n]) <= cfg.capacity
    decreases n
  {
    hide QueueInv, Sane, Work, Load, Next, Possible;
    if n > 0 {
      WorkBounds(cfg, states, steps, n - 1);
      StepKeepsQueue(cfg, states[n - 1], steps[n - 1]);
      StepKeepsSane(cfg, states[n - 1], steps[n - 1]);
      WorkFalls(cfg, states[n - 1], steps[n - 1]);
      LoadNeverRises(cfg, states[n - 1], steps[n - 1]);
      WorkingKeepsDisk(cfg, states[n - 1], steps[n - 1]);
    }
  }

  lemma WorkingKeepsDisk(cfg: Config, s: State, step: Step)
    requires Possible(cfg, s, step) && Working(step)
    ensures Next(cfg, s, step).disk == s.disk
  {
    hide ApplyEvent, Coalesced, Dispatched, Drifted;
  }

  /** Left alone, and if what is still to be queued fits, the watcher takes no more steps than there is work, whichever
      it takes first,
      and it is at rest exactly when nothing waits and no walk runs. */
  lemma SettlesInTime(cfg: Config, states: seq<State>, steps: seq<Step>)
    requires Undisturbed(cfg, states, steps)
    requires QueueInv(cfg, states[0]) && Sane(states[0]) && Load(cfg, states[0]) <= cfg.capacity
    ensures var end := states[|steps|];
            && |steps| <= Work(cfg, states[0]) && end.disk == states[0].disk
            && (AtRest(cfg, end) <==> Quiescent(end) && end.sweep.None?)
  {
    hide QueueInv, Sane, Work, Load, Next;
    WorkBounds(cfg, states, steps, |steps|);
    RestIsQuiet(cfg, states[|steps|]);
  }

  /** And if its steps are safe for a path that was accounted for, index and disk agree on it once it is at rest. */
  lemma SettlesInSync(cfg: Config, states: seq<State>, steps: seq<Step>, p: string)
    requires Undisturbed(cfg, states, steps)
    requires QueueInv(cfg, states[0]) && Sane(states[0]) && Load(cfg, states[0]) <= cfg.capacity
    requires Walks(cfg, p) && PathInv(cfg, states[0], p, false) && SafeRun(cfg, states, steps, |steps|, p, false)
    requires AtRest(cfg, states[|steps|])
    ensures InSync(cfg, states[|steps|], p)
  {
    hide QueueInv, Sane, Work, Load, Next, InSync, PathInv, SafeRun;
    SettlesInTime(cfg, states, steps);
    RunKeepsPath(cfg, states, steps, |steps|, p, false);
    QuietInSync(cfg, states[|steps|], p);
  }

  lemma RestIsQuiet(cfg: Config, s: State)
    requires Sane(s)
    ensures AtRest(cfg, s) <==> Quiescent(s) && s.sweep.None?
  {
    if !Quiescent(s) || s.sweep.Some? {
      var step := WorkGoesOn(cfg, s);
    }
  }

  lemma QuietInSync(cfg: Config, s: State, p: string)
    requires Quiescent(s) && PathInv(cfg, s, p, false)
    ensures InSync(cfg, s, p)
  {
    NothingSaysNothing(p);
  }

  /** From any state of an orderly run it is enough that the rest of the run is orderly. */
  lemma SettlesInOrder(cfg: Config, states: seq<State>, steps: seq<Step>, p: string)
    requires Undisturbed(cfg, states, steps) && Walks(cfg, p)
    requires OrderlyInv(cfg, states[0], p) && Sane(states[0]) && Load(cfg, states[0]) <= cfg.capacity
    requires OrderlyRun(cfg, states, steps, |steps|, p) && AtRest(cfg, states[|steps|])
    ensures InSync(cfg, states[|steps|], p)
  {
    hide Sane, Work, Load, AtRest, Quiescent, InSync, PathInv, QueueInv;
    OrderlyRunIsSafe(cfg, states, steps, |steps|, p);
    SettlesInSync(cfg, states, steps, p);
  }
}
