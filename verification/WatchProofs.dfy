/** No lost update: whatever the interleaving, a path that differs from the disk is on its way to be fixed. */
module WatchProofs {
  import opened Prelude
  import opened Records
  import opened Events
  import opened EventProofs
  import opened PathIndex
  import opened Watch
  import IndexModel
  import opened IndexProofs

  lemma LastSaysSnoc(es: seq<Event>, e: Event, p: string)
    ensures LastSays(es + [e], p) == if Says(e, p).Some? then Says(e, p) else LastSays(es, p)
  {
    assert (es + [e])[..|es|] == es;
  }

  lemma LastSaysCons(e: Event, es: seq<Event>, p: string)
    ensures LastSays([e] + es, p) == if LastSays(es, p).Some? then LastSays(es, p) else Says(e, p)
  {
    LastSaysConcat([e], es, p);
    LastSaysSnoc([], e, p);
    assert [] + [e] == [e];
  }

  lemma NothingSaysNothing(p: string)
    ensures LastSays([], p) == None
  {
  }

  // ---------------------------------------------------------------- queueing

  /** Queueing an event keeps a path accounted for exactly when it is safe to. */
  lemma QueuedExact(cfg: Config, s: State, e: Event, p: string, bySweep: bool)
    requires QueueInv(cfg, s) && Raw(e)
    requires Says(e, p).None? ==> Accounted(cfg, s, p, bySweep)
    ensures Accounted(cfg, Queued(cfg, s, e), p, bySweep) <==> SafeToQueue(cfg, s, e, p, bySweep)
  {
    hide LastSays, Says, WillReport, Outstanding;
    LastSaysSnoc(s.queue, e, p);
    NothingSaysNothing(p);
    var s' := Queued(cfg, s, e);
    assert InFlight(s') == InFlight(s);
    SameNotices(s, s', p);
  }

  lemma SameNotices(s: State, s': State, p: string)
    requires s'.pending == s.pending && s'.batch == s.batch && OnDisk(s'.disk, p) == OnDisk(s.disk, p)
    ensures Outstanding(s', p) == Outstanding(s, p)
  {
  }

  lemma QueuedQueueInv(cfg: Config, s: State, e: Event)
    requires QueueInv(cfg, s) && Raw(e)
    ensures QueueInv(cfg, Queued(cfg, s, e))
  {
    assert InFlight(Queued(cfg, s, e)) == InFlight(s);
  }

  // ---------------------------------------------------------------- one lemma per step

  /** What the proofs below start from. */
  ghost predicate Ready(cfg: Config, s: State, p: string, bySweep: bool) {
    QueueInv(cfg, s) && PathInv(cfg, s, p, bySweep) && Walks(cfg, p)
  }

  /** What covers a path looks at neither queue nor notices. */
  lemma SameCover(cfg: Config, s: State, s': State, p: string, bySweep: bool)
    requires s'.disk == s.disk && s'.index == s.index && s'.rescan == s.rescan
    requires s'.worker == s.worker && s'.sweep == s.sweep
    ensures Known(cfg, s', p, bySweep) == Known(cfg, s, p, bySweep)
    ensures InFlight(s') == InFlight(s)
  {
  }

  /** A change on disk is accounted for by the notice it leaves. */
  lemma NoticedKeeps(cfg: Config, s: State, s': State, kind: Kind, q: string, noticed: bool, p: string, bySweep: bool)
    requires Ready(cfg, s, p, bySweep) && !kind.Rename?
    requires s' == s.(disk := s'.disk, pending := s.pending + Notice(noticed, kind, q))
    requires p != q ==> OnDisk(s'.disk, p) == OnDisk(s.disk, p)
    requires p == q ==> noticed && kind.Delete? == (p !in s'.disk)
    ensures PathInv(cfg, s', p, bySweep)
  {
    hide LastSays;
    assert InFlight(s') == InFlight(s);
    if p == q {
      assert Event(kind, q, None) in s'.pending;
    } else {
      assert forall k: Kind :: Event(k, p, None) in s'.pending <==> Event(k, p, None) in s.pending;
      assert Known(cfg, s', p, bySweep) == Known(cfg, s, p, bySweep) by {
        hide Accounted;
      }
    }
    hide Known, InFlight;
  }

  lemma ChangeKeeps(cfg: Config, s: State, step: Step, p: string, bySweep: bool)
    requires Ready(cfg, s, p, bySweep) && Possible(cfg, s, step) && !Silent(step, p)
    requires step.Write? || step.Remove?
    ensures PathInv(cfg, Next(cfg, s, step), p, bySweep)
  {
    var kind := if step.Remove? then Delete else if step.path in s.disk then Modify else Create;
    NoticedKeeps(cfg, s, Next(cfg, s, step), kind, step.path, step.noticed, p, bySweep);
  }

  lemma CollectKeeps(cfg: Config, s: State, p: string, bySweep: bool)
    requires Ready(cfg, s, p, bySweep) && Possible(cfg, s, Collect)
    ensures PathInv(cfg, Next(cfg, s, Collect), p, bySweep)
  {
    var s' := Next(cfg, s, Collect);
    assert Known(cfg, s', p, bySweep) == Known(cfg, s, p, bySweep);
    assert InFlight(s') == InFlight(s);
    hide LastSays, Known, InFlight;
  }

  lemma DeliverExact(cfg: Config, s: State, e: Event, p: string, bySweep: bool)
    requires Ready(cfg, s, p, bySweep) && Possible(cfg, s, Deliver(e))
    ensures PathInv(cfg, Next(cfg, s, Deliver(e)), p, bySweep) <==> SafeFor(cfg, s, Deliver(e), p, bySweep)
  {
    hide LastSays, Known, InFlight, SafeToQueue;
    var s1 := s.(batch := s.batch - {e});
    SameCover(cfg, s, s1, p, bySweep);
    assert Raw(e);
    var s' := Queued(cfg, s1, e);
    assert s' == Next(cfg, s, Deliver(e)) && s'.index == s.index && s'.disk == s.disk;
    assert s'.pending == s1.pending && s'.batch == s1.batch;
    SameNotices(s1, s', p);
    if Says(e, p).None? {
      OtherNotice(s, s1, e, p);
    }
    hide Outstanding;
    QueuedExact(cfg, s1, e, p, bySweep);
  }

  /** A notice about another path is nothing to this one. */
  lemma OtherNotice(s: State, s1: State, e: Event, p: string)
    requires s1 == s.(batch := s.batch - {e}) && Raw(e) && Says(e, p).None?
    ensures Outstanding(s1, p) == Outstanding(s, p)
  {
    assert forall k: Kind :: Event(k, p, None) in s1.batch <==> Event(k, p, None) in s.batch;
  }

  lemma DrainKeeps(cfg: Config, s: State, expired: bool, p: string, bySweep: bool)
    requires Ready(cfg, s, p, bySweep) && Possible(cfg, s, DrainBegin(expired))
    ensures PathInv(cfg, Next(cfg, s, DrainBegin(expired)), p, bySweep)
  {
    var s' := Next(cfg, s, DrainBegin(expired));
    SameNotices(s, s', p);
    NothingSaysNothing(p);
    if !s.rescan {
      CoalescingKeepsLastWord(s.queue, p);
    }
    hide LastSays, Says, WillReport, Coalesced, Dispatched, InSync, Outstanding;
  }

  /** Whatever a batch comes down to, in either order. */
  lemma CoalescedShapes(es: seq<Event>)
    requires AllRaw(es)
    ensures var out := Coalesced(es); forall i :: 0 <= i < |out| ==> WellShaped(out[i])
    ensures var out := Dispatched(Coalesced(es)); forall i :: 0 <= i < |out| ==> WellShaped(out[i])
  {
    hide Dispatched, Coalesced, WellShaped;
    forall e | e in Coalesced(es) || e in Dispatched(Coalesced(es)) ensures WellShaped(e) {
      DispatchMembers(Coalesced(es), e);
      CoalescedShape(es, e);
    }
  }

  lemma CoalescedShape(es: seq<Event>, e: Event)
    requires AllRaw(es) && e in Coalesced(es)
    ensures WellShaped(e)
  {
    hide Emit, Order, LastFor, FirstIndex, RenamePair;
    var q := EmitMembers(es, Order(es), e);
  }

  /** Applying the last word about a path leaves it in sync or to a flagged rescan, unless it is an unsafe rename. */
  lemma EventExact(cfg: Config, s: State, e: Event, p: string, bySweep: bool)
    requires Walks(cfg, p) && WellShaped(e) && s.worker.Applying? && (p in s.index ==> cfg.walkable(p))
    requires Says(e, p).Some? && (Says(e, p).value == (p in s.disk) || s.rescan)
    ensures var s' := s.(index := ApplyEvent(cfg.env, s.disk, s.index, e));
            && (Known(cfg, s', p, bySweep) <==> SafeToRename(cfg, s, e, p, bySweep))
            && (p in s'.index ==> cfg.walkable(p))
  {
  }

  /** Applying an event about other paths changes nothing for this one. */
  lemma OtherEvent(cfg: Config, s: State, e: Event, p: string, bySweep: bool)
    requires Says(e, p).None?
    ensures var s' := s.(index := ApplyEvent(cfg.env, s.disk, s.index, e));
            && (Known(cfg, s', p, bySweep) <==> Known(cfg, s, p, bySweep))
            && (p in s'.index <==> p in s.index)
            && SafeToRename(cfg, s, e, p, bySweep)
  {
    assert SafeToRename(cfg, s, e, p, bySweep);
    EventFrame(cfg.env, s.disk, s.index, e, p);
    hide ApplyEvent, Says;
  }

  /** Whatever the event, an indexed path that matters can be walked. */
  lemma EventWalkable(cfg: Config, s: State, e: Event, p: string)
    requires Walks(cfg, p) && (p in s.index ==> cfg.walkable(p))
    ensures p in ApplyEvent(cfg.env, s.disk, s.index, e) ==> cfg.walkable(p)
  {
  }

  lemma ApplyExact(cfg: Config, s: State, p: string, bySweep: bool)
    requires Ready(cfg, s, p, bySweep) && Possible(cfg, s, ApplyNext)
    ensures PathInv(cfg, Next(cfg, s, ApplyNext), p, bySweep) <==> SafeFor(cfg, s, ApplyNext, p, bySweep)
  {
    hide LastSays, Says, ApplyEvent, SafeToRename, Outstanding;
    NothingSaysNothing(p);
    SameNotices(s, Next(cfg, s, ApplyNext), p);
    if s.worker.events != [] {
      var e, rest := s.worker.events[0], s.worker.events[1..];
      assert InFlight(s)[0] == e && s.worker.events == [e] + rest;
      assert WellShaped(e);
      hide WellShaped;
      LastSaysCons(e, rest, p);
      EventWalkable(cfg, s, e, p);
      var s1 := s.(index := ApplyEvent(cfg.env, s.disk, s.index, e));
      var s' := s1.(worker := Applying(rest));
      assert Known(cfg, s', p, bySweep) <==> Known(cfg, s1, p, bySweep);
      hide Known;
      if Says(e, p).None? {
        OtherEvent(cfg, s, e, p, bySweep);
      } else if Unmentioned(s, p) && LastSays(rest, p).None? {
        EventExact(cfg, s, e, p, bySweep);
      }
    }
  }

  lemma WalkStartKeeps(cfg: Config, s: State, who: Who, p: string, bySweep: bool)
    requires Ready(cfg, s, p, bySweep) && Possible(cfg, s, WalkStart(who))
    ensures PathInv(cfg, Next(cfg, s, WalkStart(who)), p, bySweep)
  {
    var s' := Next(cfg, s, WalkStart(who));
    assert InFlight(s') == InFlight(s);
    SameNotices(s, s', p);
    NothingSaysNothing(p);
    hide LastSays, Outstanding;
  }

  lemma WalkSkipExact(cfg: Config, s: State, p: string, bySweep: bool)
    requires Ready(cfg, s, p, bySweep) && Possible(cfg, s, WalkSkip)
    ensures PathInv(cfg, Next(cfg, s, WalkSkip), p, bySweep) <==> SafeFor(cfg, s, WalkSkip, p, bySweep)
  {
    NothingSaysNothing(p);
    SameNotices(s, Next(cfg, s, WalkSkip), p);
    hide LastSays, InSync, WillReport, Outstanding;
  }

  /** The walk moves on without queueing anything: it meets a path that shows no drift or is gone before its mtime is read,
      finds one that does, or misses one. */
  predicate MovesOn(s: State, s': State, who: Who, q: string)
    requires Running(s, who)
  {
    if q in s.disk then s' == if Drifted(WalkOf(s, who), s.disk, q) then Found(s, who, q) else Met(s, who, q)
    else s' == Missed(s, who, q) || (s' == Met(s, who, q) && q in WalkOf(s, who).todo)
  }

  /** Then what covers a path stays. */
  lemma WalkOnCovers(cfg: Config, s: State, s': State, who: Who, q: string, p: string, bySweep: bool)
    requires Running(s, who) && WalkOf(s, who).found.None? && Known(cfg, s, p, bySweep) && MovesOn(s, s', who, q)
    ensures Known(cfg, s', p, bySweep)
  {
    var w' := WalkOn(s, s', who, q, p);
    SameAt(cfg, s, s', p);
    hide InSync, WalkTells, WillReport, MovesOn;
  }

  /** Only the walk itself changes, and it will report what it would have. */
  lemma WalkOn(s: State, s': State, who: Who, q: string, p: string) returns (w': Walk)
    requires Running(s, who) && WalkOf(s, who).found.None? && MovesOn(s, s', who, q)
    ensures s' == SetWalk(s, who, w')
    ensures WillReport(WalkOf(s, who), s.disk, p) ==> WillReport(w', s.disk, p)
  {
    w' := WalkOf(s', who);
  }

  lemma WalkOnKeeps(cfg: Config, s: State, s': State, who: Who, q: string, p: string, bySweep: bool)
    requires Ready(cfg, s, p, bySweep) && Running(s, who) && WalkOf(s, who).found.None? && MovesOn(s, s', who, q)
    ensures PathInv(cfg, s', p, bySweep) && QueueInv(cfg, s')
  {
    assert InFlight(s') == InFlight(s);
    assert s' == s.(worker := s'.worker, sweep := s'.sweep);
    SameNotices(s, s', p);
    if Known(cfg, s, p, bySweep) {
      WalkOnCovers(cfg, s, s', who, q, p, bySweep);
    }
    hide LastSays, Known, Outstanding, InFlight, MovesOn;
  }

  lemma VisitKeeps(cfg: Config, s: State, who: Who, q: string, p: string, bySweep: bool)
    requires Ready(cfg, s, p, bySweep) && Possible(cfg, s, Visit(who, q))
    ensures PathInv(cfg, Next(cfg, s, Visit(who, q)), p, bySweep)
  {
    WalkOnKeeps(cfg, s, Next(cfg, s, Visit(who, q)), who, q, p, bySweep);
  }

  /** Between reading a file's mtime and queueing what it says, the file may have changed again. */
  lemma ReportExact(cfg: Config, s: State, who: Who, p: string, bySweep: bool)
    requires Ready(cfg, s, p, bySweep) && Possible(cfg, s, Report(who))
    ensures PathInv(cfg, Next(cfg, s, Report(who)), p, bySweep) <==> SafeFor(cfg, s, Report(who), p, bySweep)
  {
    var q := WalkOf(s, who).found.value;
    var s1, e := Told(s, who), DriftEvent(WalkOf(s, who).recorded, q);
    QueuesExact(cfg, s, s1, e, p, bySweep) by {
      hide InSync;
      assert Says(e, p).None? <==> p != q;
    }
  }

  /** A walk queues an event; its own progress matters only to the path the event is about. */
  lemma QueuesExact(cfg: Config, s: State, s1: State, e: Event, p: string, bySweep: bool)
    requires Ready(cfg, s, p, bySweep) && Raw(e)
    requires s1 == s.(worker := s1.worker, sweep := s1.sweep) && InFlight(s1) == InFlight(s)
    requires Says(e, p).None? ==> Known(cfg, s1, p, bySweep) == Known(cfg, s, p, bySweep)
    ensures PathInv(cfg, Queued(cfg, s1, e), p, bySweep) <==> SafeToQueue(cfg, s1, e, p, bySweep)
  {
    SameNotices(s, s1, p);
    hide LastSays, Says, Known, InFlight, Outstanding, SafeToQueue;
    QueuedExact(cfg, s1, e, p, bySweep);
  }

  lemma GlimpseKeeps(cfg: Config, s: State, who: Who, q: string, p: string, bySweep: bool)
    requires Ready(cfg, s, p, bySweep) && Possible(cfg, s, Glimpse(who, q))
    ensures PathInv(cfg, Next(cfg, s, Glimpse(who, q)), p, bySweep)
  {
    WalkOnKeeps(cfg, s, Met(s, who, q), who, q, p, bySweep);
  }

  lemma ReportGoneExact(cfg: Config, s: State, who: Who, q: string, p: string, bySweep: bool)
    requires Ready(cfg, s, p, bySweep) && Possible(cfg, s, ReportGone(who, q))
    ensures PathInv(cfg, Next(cfg, s, ReportGone(who, q)), p, bySweep)
            <==> SafeFor(cfg, s, ReportGone(who, q), p, bySweep)
  {
    var s1, e := ReportedGone(s, who, q), Event(Delete, q, None);
    QueuesExact(cfg, s, s1, e, p, bySweep) by {
      hide InSync;
      assert Says(e, p).None? <==> p != q;
    }
  }

  lemma WalkFinishKeeps(cfg: Config, s: State, who: Who, p: string, bySweep: bool)
    requires Ready(cfg, s, p, bySweep) && Possible(cfg, s, WalkFinish(who))
    ensures PathInv(cfg, Next(cfg, s, WalkFinish(who)), p, bySweep)
  {
    var s' := Next(cfg, s, WalkFinish(who));
    assert InFlight(s') == InFlight(s);
    SameNotices(s, s', p);
    NothingSaysNothing(p);
    hide LastSays, InSync, Outstanding;
  }

  lemma ReAddExact(cfg: Config, s: State, p: string, bySweep: bool)
    requires Ready(cfg, s, p, bySweep)
    ensures PathInv(cfg, Next(cfg, s, ReAdd), p, bySweep) <==> SafeFor(cfg, s, ReAdd, p, bySweep)
  {
    var s' := Next(cfg, s, ReAdd);
    assert InFlight(s') == InFlight(s);
    SameNotices(s, s', p);
    hide LastSays, InSync, WillReport, Outstanding;
  }

  /** From a state that accounts for a path, a step that does not change the path unnoticed keeps it accounted for
      if and only if the step is safe for it. */
  lemma StepExact(cfg: Config, s: State, step: Step, p: string, bySweep: bool)
    requires QueueInv(cfg, s) && Walks(cfg, p) && PathInv(cfg, s, p, bySweep)
    requires Possible(cfg, s, step) && !Silent(step, p)
    ensures PathInv(cfg, Next(cfg, s, step), p, bySweep) <==> SafeFor(cfg, s, step, p, bySweep)
  {
    hide PathInv, SafeFor, Next;
    match step
    case Write(_, _, _) => ChangeKeeps(cfg, s, step, p, bySweep); AlwaysSafe(cfg, s, step, p, bySweep);
    case Remove(_, _) => ChangeKeeps(cfg, s, step, p, bySweep); AlwaysSafe(cfg, s, step, p, bySweep);
    case Collect => CollectKeeps(cfg, s, p, bySweep); AlwaysSafe(cfg, s, step, p, bySweep);
    case Deliver(e) => DeliverExact(cfg, s, e, p, bySweep);
    case DrainBegin(expired) => DrainKeeps(cfg, s, expired, p, bySweep); AlwaysSafe(cfg, s, step, p, bySweep);
    case ApplyNext => ApplyExact(cfg, s, p, bySweep);
    case WalkStart(who) => WalkStartKeeps(cfg, s, who, p, bySweep); AlwaysSafe(cfg, s, step, p, bySweep);
    case WalkSkip => WalkSkipExact(cfg, s, p, bySweep);
    case Visit(who, q) => VisitKeeps(cfg, s, who, q, p, bySweep); AlwaysSafe(cfg, s, step, p, bySweep);
    case Glimpse(who, q) => GlimpseKeeps(cfg, s, who, q, p, bySweep); AlwaysSafe(cfg, s, step, p, bySweep);
    case Report(who) => ReportExact(cfg, s, who, p, bySweep);
    case ReportGone(who, q) => ReportGoneExact(cfg, s, who, q, p, bySweep);
    case WalkFinish(who) => WalkFinishKeeps(cfg, s, who, p, bySweep); AlwaysSafe(cfg, s, step, p, bySweep);
    case ReAdd => ReAddExact(cfg, s, p, bySweep);
  }

  /** Disk changes, drains, and a walk that queues nothing ask nothing. */
  lemma AlwaysSafe(cfg: Config, s: State, step: Step, p: string, bySweep: bool)
    requires Possible(cfg, s, step)
    requires || step.Write? || step.Remove? || step.Collect? || step.DrainBegin? || step.WalkStart?
             || step.Visit? || step.Glimpse? || step.WalkFinish?
    ensures SafeFor(cfg, s, step, p, bySweep)
  {
  }

  // ---------------------------------------------------------------- the queue, and all paths together

  lemma DrainKeepsQueue(cfg: Config, s: State, expired: bool)
    requires QueueInv(cfg, s) && Possible(cfg, s, DrainBegin(expired))
    ensures QueueInv(cfg, Next(cfg, s, DrainBegin(expired)))
  {
    hide Coalesced, Dispatched;
    CoalescedShapes(if expired then s.queue else []);
  }

  lemma WalkKeepsQueue(cfg: Config, s: State, step: Step)
    requires QueueInv(cfg, s) && Possible(cfg, s, step) && (step.Visit? || step.Glimpse? || step.Report? || step.ReportGone?)
    ensures QueueInv(cfg, Next(cfg, s, step))
  {
    match step
    case Visit(who, _) => assert InFlight(Next(cfg, s, step)) == InFlight(s);
    case Glimpse(who, _) => assert InFlight(Next(cfg, s, step)) == InFlight(s);
    case Report(who) =>
      assert InFlight(Told(s, who)) == InFlight(s);
      QueuedQueueInv(cfg, Told(s, who), DriftEvent(WalkOf(s, who).recorded, WalkOf(s, who).found.value));
    case ReportGone(who, q) =>
      assert InFlight(ReportedGone(s, who, q)) == InFlight(s);
      QueuedQueueInv(cfg, ReportedGone(s, who, q), Event(Delete, q, None));
  }

  lemma ApplyKeepsQueue(cfg: Config, s: State)
    requires QueueInv(cfg, s) && Possible(cfg, s, ApplyNext)
    ensures QueueInv(cfg, Next(cfg, s, ApplyNext))
  {
    hide ApplyEvent;
    if s.worker.events != [] {
      assert forall i :: 0 <= i < |s.worker.events[1..]| ==> s.worker.events[1..][i] == InFlight(s)[i + 1];
    }
  }

  lemma DeliverKeepsQueue(cfg: Config, s: State, e: Event)
    requires QueueInv(cfg, s) && Possible(cfg, s, Deliver(e))
    ensures QueueInv(cfg, Next(cfg, s, Deliver(e)))
  {
    var s1 := s.(batch := s.batch - {e});
    assert InFlight(s1) == InFlight(s);
    QueuedQueueInv(cfg, s1, e);
  }

  /** The queue never exceeds its capacity, a flagged rescan means it is empty, and it holds raw events:
      whatever happens, safe or not. */
  lemma StepKeepsQueue(cfg: Config, s: State, step: Step)
    requires QueueInv(cfg, s) && Possible(cfg, s, step)
    ensures QueueInv(cfg, Next(cfg, s, step))
  {
    match step
    case Deliver(e) => DeliverKeepsQueue(cfg, s, e);
    case DrainBegin(expired) => DrainKeepsQueue(cfg, s, expired);
    case ApplyNext => ApplyKeepsQueue(cfg, s);
    case Visit(_, _) => WalkKeepsQueue(cfg, s, step);
    case Glimpse(_, _) => WalkKeepsQueue(cfg, s, step);
    case Report(_) => WalkKeepsQueue(cfg, s, step);
    case ReportGone(_, _) => WalkKeepsQueue(cfg, s, step);
    case _ =>
      hide Coalesced, Dispatched, ApplyEvent;
      assert InFlight(Next(cfg, s, step)) == InFlight(s);
  }

  /** From a state that accounts for every followed path, a step leads to another if and only if it is safe. */
  lemma StepInvExact(cfg: Config, s: State, step: Step)
    requires Inv(cfg, s) && Possible(cfg, s, step) && forall p :: Followed(cfg, p) ==> !Silent(step, p)
    ensures Inv(cfg, Next(cfg, s, step)) <==> Safe(cfg, s, step)
  {
    StepKeepsQueue(cfg, s, step);
    forall p | Followed(cfg, p)
      ensures PathInv(cfg, Next(cfg, s, step), p, false) <==> SafeFor(cfg, s, step, p, false)
    {
      StepExact(cfg, s, step, p, false);
    }
    hide PathInv, SafeFor, Next, QueueInv;
  }

  // ---------------------------------------------------------------- what a run may contain

  /** Nothing holds back the disk or the order of a batch: any file may be written or removed at any time, noticed if it is
      watched and unnoticed always, and any notice of the batch may be the next one. */
  lemma AnyChange(cfg: Config, s: State, p: string, file: DiskFile, e: Event)
    ensures Possible(cfg, s, Write(p, file, false)) && (Possible(cfg, s, Write(p, file, true)) <==> cfg.watched(p))
    ensures p in s.disk ==> Possible(cfg, s, Remove(p, false)) && (Possible(cfg, s, Remove(p, true)) <==> cfg.watched(p))
    ensures Possible(cfg, s, Deliver(e)) <==> e in s.batch
  {
  }

  /** A walk with nothing to queue may come next to any walkable file it has not met, listed when it began or not; and where a
      listed one is gone, it may miss it altogether or only find its mtime missing. */
  lemma AnyVisit(cfg: Config, s: State, who: Who, p: string)
    requires Running(s, who) && WalkOf(s, who).found.None? && p !in WalkOf(s, who).seen
    ensures p in s.disk && cfg.walkable(p) ==>
              Possible(cfg, s, Visit(who, p)) && p in WalkOf(Next(cfg, s, Visit(who, p)), who).seen
    ensures p !in s.disk && p in WalkOf(s, who).todo ==>
              && Possible(cfg, s, Visit(who, p)) && p !in WalkOf(Next(cfg, s, Visit(who, p)), who).seen
              && Possible(cfg, s, Glimpse(who, p)) && p in WalkOf(Next(cfg, s, Glimpse(who, p)), who).seen
  {
  }

  // ---------------------------------------------------------------- runs

  ghost predicate Run(cfg: Config, states: seq<State>, steps: seq<Step>) {
    && |states| == |steps| + 1
    && forall i :: 0 <= i < |steps| ==> Possible(cfg, states[i], steps[i]) && states[i + 1] == Next(cfg, states[i], steps[i])
  }

  /** None of the first `n` steps is unsafe for the path or changes it unnoticed. */
  ghost predicate SafeRun(cfg: Config, states: seq<State>, steps: seq<Step>, n: nat, p: string, bySweep: bool)
    requires Run(cfg, states, steps) && n <= |steps|
  {
    forall i :: 0 <= i < n ==> SafeFor(cfg, states[i], steps[i], p, bySweep) && !Silent(steps[i], p)
  }

  /** A quiet start: nothing under way and the path in sync. A full scan alone does not bring about the latter for a path
      that is gone, whose record it keeps. */
  ghost predicate Init(cfg: Config, s: State, p: string) {
    && s.pending == {} && s.batch == {} && s.queue == [] && !s.rescan && s.worker.Idle? && s.sweep.None?
    && InSync(cfg, s, p) && (p in s.index ==> cfg.walkable(p))
  }

  /** Nothing is waiting anywhere. */
  predicate Quiescent(s: State) {
    s.pending == {} && s.batch == {} && s.queue == [] && !s.rescan && s.worker.Idle?
  }

  lemma InitInv(cfg: Config, s: State, p: string, bySweep: bool)
    requires Init(cfg, s, p)
    ensures QueueInv(cfg, s) && PathInv(cfg, s, p, bySweep)
  {
    NothingSaysNothing(p);
  }

  lemma {:induction false} RunKeepsQueue(cfg: Config, states: seq<State>, steps: seq<Step>, n: nat)
    requires Run(cfg, states, steps) && QueueInv(cfg, states[0]) && n < |states|
    ensures QueueInv(cfg, states[n])
    decreases n
  {
    hide QueueInv, Next;
    if n > 0 {
      RunKeepsQueue(cfg, states, steps, n - 1);
      StepKeepsQueue(cfg, states[n - 1], steps[n - 1]);
    }
  }

  lemma {:induction false} RunKeepsPath(cfg: Config, states: seq<State>, steps: seq<Step>, n: nat, p: string, bySweep: bool)
    requires Run(cfg, states, steps) && QueueInv(cfg, states[0]) && n <= |steps|
    requires Walks(cfg, p) && PathInv(cfg, states[0], p, bySweep) && SafeRun(cfg, states, steps, n, p, bySweep)
    ensures PathInv(cfg, states[n], p, bySweep)
    decreases n
  {
    hide QueueInv, PathInv, Next, SafeFor;
    if n > 0 {
      RunKeepsPath(cfg, states, steps, n - 1, p, bySweep);
      RunKeepsQueue(cfg, states, steps, n - 1);
      StepExact(cfg, states[n - 1], steps[n - 1], p, bySweep);
    }
  }

  /** In a run without unnoticed changes of a path, it is accounted for all along if and only if every step is safe for it. */
  lemma RunExact(cfg: Config, states: seq<State>, steps: seq<Step>, p: string, bySweep: bool)
    requires Run(cfg, states, steps) && QueueInv(cfg, states[0])
    requires Walks(cfg, p) && PathInv(cfg, states[0], p, bySweep)
    requires forall i :: 0 <= i < |steps| ==> !Silent(steps[i], p)
    ensures (forall n :: 0 <= n < |states| ==> PathInv(cfg, states[n], p, bySweep))
            <==> SafeRun(cfg, states, steps, |steps|, p, bySweep)
  {
    hide QueueInv, PathInv, Next, SafeFor, Silent;
    if SafeRun(cfg, states, steps, |steps|, p, bySweep) {
      forall n | 0 <= n < |states| ensures PathInv(cfg, states[n], p, bySweep) {
        RunKeepsPath(cfg, states, steps, n, p, bySweep);
      }
    }
    if forall n :: 0 <= n < |states| ==> PathInv(cfg, states[n], p, bySweep) {
      forall i | 0 <= i < |steps| ensures SafeFor(cfg, states[i], steps[i], p, bySweep) {
        RunKeepsQueue(cfg, states, steps, i);
        assert PathInv(cfg, states[i], p, bySweep) && PathInv(cfg, states[i + 1], p, bySweep);
        StepExact(cfg, states[i], steps[i], p, bySweep);
      }
    }
  }

  /** No lost update: at every moment of every run that is safe for a followed path, if index and disk differ on it, it
      is named in what is coming or in flight, or a rescan will still tell; and when nothing is left, they agree. */
  lemma NoLostUpdate(cfg: Config, states: seq<State>, steps: seq<Step>, n: nat, p: string)
    requires Run(cfg, states, steps) && Init(cfg, states[0], p) && n <= |steps|
    requires Walks(cfg, p) && SafeRun(cfg, states, steps, n, p, false)
    ensures !InSync(cfg, states[n], p) ==> Mentioned(states[n], p) || Rescanned(states[n], p, false)
    ensures Quiescent(states[n]) ==> InSync(cfg, states[n], p)
  {
    InitInv(cfg, states[0], p, false);
    RunKeepsPath(cfg, states, steps, n, p, false);
    NothingSaysNothing(p);
  }

  // ---------------------------------------------------------------- changes nobody notices

  /** A change at rest stays accounted for if and only if it is let through or leaves the path in sync; one that is
      neither leaves everything at rest with the update lost until the next walk. */
  lemma SilentChangeExact(cfg: Config, s: State, step: Step, p: string)
    requires Quiescent(s) && Possible(cfg, s, step) && (step.Write? || step.Remove?) && step.path == p
    ensures Accounted(cfg, Next(cfg, s, step), p, false)
            <==> || step.noticed
                 || (match step
                     case Write(_, file, _) =>
                       cfg.env.shouldIndex(p, file.content) ==> HashAt(s.index, p) == Some(cfg.env.fileHash(file.content))
                     case _ => p !in s.index)
    ensures !step.noticed ==> Quiescent(Next(cfg, s, step))
  {
    NothingSaysNothing(p);
  }

  /** No word on its way is wrong about the path, and a walk that begins now can tell. */
  predicate Tellable(cfg: Config, s: State, p: string) {
    Outstanding(s, p) ||
    if LastSays(s.queue, p).Some? then LastSays(s.queue, p).value == (p in s.disk)
    else if LastSays(InFlight(s), p).Some? then LastSays(InFlight(s), p).value == (p in s.disk) || s.rescan
    else Known(cfg, s, p, false) || WalkTells(s, p)
  }

  /** A periodic walk that begins accounts for a path, followed or not, if and only if nothing wrong about the path
      is on its way already and its recorded mtime is older, where that is all there is to tell by. */
  lemma SweepStartExact(cfg: Config, s: State, p: string)
    requires Walks(cfg, p) && (p in s.index ==> cfg.walkable(p)) && Possible(cfg, s, WalkStart(BySweep))
    ensures PathInv(cfg, Next(cfg, s, WalkStart(BySweep)), p, true) <==> Tellable(cfg, s, p)
  {
    var s' := Next(cfg, s, WalkStart(BySweep));
    assert InFlight(s') == InFlight(s);
    SameNotices(s, s', p);
    hide LastSays, Outstanding;
  }

  /** A periodic walk that runs from start to finish catches up with whatever changed before it began, noticed or not:
      afterwards the path is accounted for without it, and once at rest it is in sync. */
  lemma SweepCatchesUp(cfg: Config, states: seq<State>, steps: seq<Step>, p: string)
    requires Run(cfg, states, steps) && QueueInv(cfg, states[0]) && |steps| >= 2
    requires steps[0] == WalkStart(BySweep) && steps[|steps| - 1] == WalkFinish(BySweep)
    requires Walks(cfg, p) && (p in states[0].index ==> cfg.walkable(p)) && Tellable(cfg, states[0], p)
    requires SafeRun(cfg, states, steps, |steps|, p, true)
    ensures PathInv(cfg, states[|steps|], p, false)
    ensures Quiescent(states[|steps|]) ==> InSync(cfg, states[|steps|], p)
  {
    var n := |steps|;
    assert states[1] == Next(cfg, states[0], steps[0]);
    SweepStartExact(cfg, states[0], p);
    RunKeepsQueue(cfg, states, steps, 1);
    var later, laterSteps := states[1..], steps[1..];
    LaterRun(cfg, states, steps, p);
    RunKeepsPath(cfg, later, laterSteps, n - 1, p, true);
    assert later[n - 1] == states[n] && states[n] == Next(cfg, states[n - 1], steps[n - 1]);
    assert states[n].sweep.None?;
    NothingSaysNothing(p);
    hide LastSays, InSync, QueueInv, Run, SafeRun;
  }

  lemma LaterRun(cfg: Config, states: seq<State>, steps: seq<Step>, p: string)
    requires Run(cfg, states, steps) && steps != [] && SafeRun(cfg, states, steps, |steps|, p, true)
    ensures Run(cfg, states[1..], steps[1..]) && SafeRun(cfg, states[1..], steps[1..], |steps| - 1, p, true)
  {
    hide SafeFor, Next, Possible, Silent;
    var later, laterSteps := states[1..], steps[1..];
    forall i | 0 <= i < |laterSteps|
      ensures Possible(cfg, later[i], laterSteps[i]) && later[i + 1] == Next(cfg, later[i], laterSteps[i])
      ensures SafeFor(cfg, later[i], laterSteps[i], p, true) && !Silent(laterSteps[i], p)
    {
      assert later[i] == states[i + 1] && laterSteps[i] == steps[i + 1] && later[i + 1] == states[i + 2];
    }
  }

  // ---------------------------------------------------------------- updates no walk finds

  /** The walk has read a record no older than the file and does not miss the file. */
  predicate Blind(w: Walk, disk: Disk, p: string)
    requires p in disk
  {
    p in w.recorded && disk[p].mtime <= w.recorded[p] && p in w.todo + w.seen && w.found != Some(p)
  }

  /** Index and disk differ, nothing on its way says so, and no walk can tell. */
  predicate Lost(cfg: Config, s: State, p: string) {
    && Unmentioned(s, p) && LastSays(InFlight(s), p).None?
    && !InSync(cfg, s, p) && !WalkTells(s, p) && cfg.walkable(p)
    && (s.worker.Walking? ==> Blind(s.worker.walk, s.disk, p))
    && (s.sweep.Some? ==> Blind(s.sweep.value, s.disk, p))
  }

  lemma QueuedStaysLost(cfg: Config, s: State, e: Event, p: string)
    requires Lost(cfg, s, p) && Says(e, p).None?
    ensures Lost(cfg, Queued(cfg, s, e), p)
  {
    hide Says;
    LastSaysSnoc(s.queue, e, p);
    NothingSaysNothing(p);
    assert InFlight(Queued(cfg, s, e)) == InFlight(s);
    SameNotices(s, Queued(cfg, s, e), p);
    hide LastSays, Outstanding;
  }

  /** What is recorded of a path and what is on disk decide the rest. */
  lemma SameAt(cfg: Config, s: State, s': State, p: string)
    requires OnDisk(s'.disk, p) == OnDisk(s.disk, p) && Get(s'.index, p) == Get(s.index, p)
    ensures InSync(cfg, s', p) == InSync(cfg, s, p) && WalkTells(s', p) == WalkTells(s, p)
    ensures forall w :: p in s.disk ==> Blind(w, s'.disk, p) == Blind(w, s.disk, p)
  {
  }

  lemma QuietChange(cfg: Config, s: State, step: Step, p: string)
    requires Lost(cfg, s, p) && Possible(cfg, s, step) && (step.Write? || step.Remove?) && step.path != p
    ensures Lost(cfg, Next(cfg, s, step), p)
  {
    var s' := Next(cfg, s, step);
    assert forall k: Kind :: Event(k, p, None) in s'.pending <==> Event(k, p, None) in s.pending;
    assert s' == s.(disk := s'.disk, pending := s'.pending);
    SameAt(cfg, s, s', p);
    hide LastSays, Next, Possible, InSync, WalkTells, Blind;
  }

  lemma DeliverStaysLost(cfg: Config, s: State, e: Event, p: string)
    requires QueueInv(cfg, s) && Lost(cfg, s, p) && Possible(cfg, s, Deliver(e))
    ensures Lost(cfg, Next(cfg, s, Deliver(e)), p)
  {
    assert Raw(e) && Says(e, p).None?;
    var s1 := s.(batch := s.batch - {e});
    assert InFlight(s1) == InFlight(s);
    hide LastSays, Says;
    QueuedStaysLost(cfg, s1, e, p);
  }

  lemma DrainStaysLost(cfg: Config, s: State, expired: bool, p: string)
    requires QueueInv(cfg, s) && Lost(cfg, s, p) && Possible(cfg, s, DrainBegin(expired))
    ensures Lost(cfg, Next(cfg, s, DrainBegin(expired)), p)
  {
    SameNotices(s, Next(cfg, s, DrainBegin(expired)), p);
    NothingSaysNothing(p);
    CoalescingKeepsLastWord(if expired then s.queue else [], p);
    hide LastSays, Coalesced, Dispatched, Outstanding;
  }

  lemma ApplyStaysLost(cfg: Config, s: State, p: string)
    requires Lost(cfg, s, p) && Possible(cfg, s, ApplyNext)
    ensures Lost(cfg, Next(cfg, s, ApplyNext), p)
  {
    hide LastSays, Says, ApplyEvent, InSync, WalkTells, Blind;
    var s' := Next(cfg, s, ApplyNext);
    NothingSaysNothing(p);
    if s.worker.events != [] {
      var e, rest := s.worker.events[0], s.worker.events[1..];
      assert s.worker.events == [e] + rest;
      LastSaysCons(e, rest, p);
      EventFrame(cfg.env, s.disk, s.index, e, p);
    }
    SameAt(cfg, s, s', p);
    SameNotices(s, s', p);
    hide Outstanding;
  }

  lemma WalkStaysLost(cfg: Config, s: State, step: Step, p: string)
    requires Lost(cfg, s, p) && Possible(cfg, s, step) && (step.Visit? || step.Report? || step.ReportGone?)
    ensures Lost(cfg, Next(cfg, s, step), p)
  {
    var who := step.who;
    if step.Visit? {
      MovedOnStaysLost(cfg, s, Next(cfg, s, step), who, step.path, p);
    } else {
      var q := if step.Report? then WalkOf(s, who).found.value else step.path;
      var s1 := if step.Report? then Told(s, who) else ReportedGone(s, who, q);
      var e := if step.Report? then DriftEvent(WalkOf(s, who).recorded, q) else Event(Delete, q, None);
      MovedOnStaysLost(cfg, s, s1, who, q, p);
      assert Says(e, p).None?;
      hide Lost, Queued, ReportedGone, Told, Says;
      QueuedStaysLost(cfg, s1, e, p);
    }
  }

  lemma MovedOnStaysLost(cfg: Config, s: State, s': State, who: Who, q: string, p: string)
    requires Lost(cfg, s, p) && Running(s, who)
    requires || s' == ReportedGone(s, who, q) || s' == Told(s, who)
             || s' == Met(s, who, q) || (p != q && (s' == Missed(s, who, q) || s' == Found(s, who, q)))
    ensures Lost(cfg, s', p)
  {
    assert InFlight(s') == InFlight(s);
    var w' := WalkOf(s', who);
    assert s' == SetWalk(s, who, w');
    if p in s.disk && Blind(WalkOf(s, who), s.disk, p) {
      StillBlind(WalkOf(s, who), w', s.disk, q, p);
    }
    SameNotices(s, s', p);
    hide LastSays, WalkTells, InFlight, Outstanding, Blind, Missed, Found, Met, Told, ReportedGone;
  }

  lemma StillBlind(w: Walk, w': Walk, disk: Disk, q: string, p: string)
    requires p in disk && Blind(w, disk, p)
    requires w'.recorded == w.recorded && w.todo - {q} <= w'.todo && w.seen <= w'.seen
    requires p == q ==> w'.todo == w.todo || p in w'.seen
    requires w'.found == w.found || w'.found.None? || (w'.found == Some(q) && p != q)
    ensures Blind(w', disk, p)
  {
  }

  /** Such a path stays lost, whatever happens and however many walks are done, until it changes again. */
  lemma LostForGood(cfg: Config, s: State, step: Step, p: string)
    requires QueueInv(cfg, s) && Lost(cfg, s, p) && Possible(cfg, s, step)
    requires !((step.Write? || step.Remove?) && step.path == p)
    ensures Lost(cfg, Next(cfg, s, step), p)
  {
    match step
    case Write(_, _, _) => QuietChange(cfg, s, step, p);
    case Remove(_, _) => QuietChange(cfg, s, step, p);
    case Deliver(e) => DeliverStaysLost(cfg, s, e, p);
    case DrainBegin(expired) => DrainStaysLost(cfg, s, expired, p);
    case ApplyNext => ApplyStaysLost(cfg, s, p);
    case Visit(_, _) => WalkStaysLost(cfg, s, step, p);
    case Report(_) => WalkStaysLost(cfg, s, step, p);
    case ReportGone(_, _) => WalkStaysLost(cfg, s, step, p);
    case WalkSkip => // not with the file on disk
    case _ =>
      NothingSaysNothing(p);
      hide LastSays, InSync;
  }

  // ---------------------------------------------------------------- from disk to retrieved chunks

  /** Watcher and indexer together: every event the worker applies is the indexer operation it triggers, on the index
      with its chunks and rows; `rows` are what the embedding store hands out on the way. */
  ghost predicate JointRun(cfg: Config, project: string, states: seq<State>, steps: seq<Step>,
                           full: seq<IndexModel.Index>, rows: seq<seq<nat>>)
  {
    && Run(cfg, states, steps) && |full| == |states| && |rows| == |steps|
    && forall i :: 0 <= i < |steps| ==> JointStep(cfg, project, states[i], steps[i], full[i], full[i + 1], rows[i])
  }

  ghost predicate JointStep(cfg: Config, project: string, s: State, step: Step, before: IndexModel.Index,
                            after: IndexModel.Index, rows: seq<nat>)
    requires Possible(cfg, s, step)
  {
    if step.ApplyNext? && s.worker.events != [] then
      var op := OpFor(project, s.disk, s.worker.events[0], rows);
      IndexModel.Enabled(cfg.env, before, op) && after == IndexModel.Apply(cfg.env, before, op)
    else after == before
  }

  /** One step keeps the full index sound and the watcher's view its projection. */
  lemma JointStepKeeps(cfg: Config, project: string, s: State, step: Step, before: IndexModel.Index,
                       after: IndexModel.Index, rows: seq<nat>)
    requires CollisionFree(cfg.env) && QueueInv(cfg, s) && Possible(cfg, s, step)
    requires JointStep(cfg, project, s, step, before, after, rows)
    requires Sound(cfg.env, before) && Project(before, project) == s.index
    ensures Sound(cfg.env, after) && Project(after, project) == Next(cfg, s, step).index
  {
    hide Sound, Project, IndexModel.Apply, IndexModel.Enabled, ApplyEvent, OpFor;
    if step.ApplyNext? && s.worker.events != [] {
      assert WellShaped(InFlight(s)[0]);
      IndexerRefinesPaths(cfg.env, before, project, s.disk, s.worker.events[0], rows);
      ApplySound(cfg.env, before, OpFor(project, s.disk, s.worker.events[0], rows));
    }
  }

  lemma {:induction false} JointRunKeeps(cfg: Config, project: string, states: seq<State>, steps: seq<Step>,
                                         full: seq<IndexModel.Index>, rows: seq<seq<nat>>, n: nat)
    requires CollisionFree(cfg.env) && JointRun(cfg, project, states, steps, full, rows) && n < |states|
    requires QueueInv(cfg, states[0]) && Sound(cfg.env, full[0]) && Project(full[0], project) == states[0].index
    ensures Sound(cfg.env, full[n]) && Project(full[n], project) == states[n].index
    decreases n
  {
    hide Sound, Project, JointStep, Next, QueueInv;
    if n > 0 {
      JointRunKeeps(cfg, project, states, steps, full, rows, n - 1);
      RunKeepsQueue(cfg, states, steps, n - 1);
      assert JointStep(cfg, project, states[n - 1], steps[n - 1], full[n - 1], full[n - 1 + 1], rows[n - 1]);
      JointStepKeeps(cfg, project, states[n - 1], steps[n - 1], full[n - 1], full[n], rows[n - 1]);
    }
  }

  /** At rest, after any joint run that is safe for a followed path, a search of an accepted file there sees exactly
      what indexing its content from nothing would show, and a file that is gone is gone from the index. */
  lemma QuiescentMeansReindexed(cfg: Config, project: string, states: seq<State>, steps: seq<Step>,
                                full: seq<IndexModel.Index>, rows: seq<seq<nat>>, p: string)
    requires CollisionFree(cfg.env) && JointRun(cfg, project, states, steps, full, rows)
    requires Sound(cfg.env, full[0]) && Project(full[0], project) == states[0].index
    requires Init(cfg, states[0], p) && Walks(cfg, p) && SafeRun(cfg, states, steps, |steps|, p, false)
    requires Quiescent(states[|steps|])
    ensures var disk, s, key := states[|steps|].disk, full[|steps|], IndexModel.Key(project, p);
            if p in disk
            then Indexable(cfg.env, disk, p) ==> Retrieved(s, key) == FromScratch(cfg.env, disk[p].content)
            else key !in s.files
  {
    assert |states| == |steps| + 1;
    hide Sound, Retrieved, FromScratch, Project, JointStep, Run, SafeRun;
    InitInv(cfg, states[0], p, false);
    JointRunKeeps(cfg, project, states, steps, full, rows, |steps|);
    NoLostUpdate(cfg, states, steps, |steps|, p);
    var disk, s := states[|steps|].disk, full[|steps|];
    if Indexable(cfg.env, disk, p) {
      ProjectGives(s, project, p);
      SoundIsFromScratch(cfg.env, s, IndexModel.Key(project, p), disk[p].content);
    }
  }

  lemma ProjectGives(s: IndexModel.Index, project: string, p: string)
    requires p in Project(s, project)
    ensures IndexModel.Key(project, p) in s.files
    ensures s.files[IndexModel.Key(project, p)].contentHash == Project(s, project)[p].hash
  {
  }
}
