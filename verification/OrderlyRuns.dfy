/** What the surroundings have to do for no update to be lost: conditions on single changes, batches and renames. */
module OrderlyRuns {
  import opened Prelude
  import opened Records
  import opened Events
  import opened EventProofs
  import opened PathIndex
  import opened Watch
  import opened WatchProofs
  import IndexModel
  import IndexProofs

  /** A batch does not say of a path both that it is there and that it is gone. */
  predicate OneWord(notices: set<Event>, p: string) {
    !(Hears(notices, p, true) && Hears(notices, p, false))
  }

  /** Every change of the path is noticed and a new content has a newer mtime than the record; a batch holds one kind of
      word about it; a RENAME to it is a true move; the root is there when a rescan is due, and no project is added again
      while one is flagged; and a walk that reports the path late finds it as it was, or its notice is yet to come. */
  predicate Orderly(cfg: Config, s: State, step: Step, p: string)
    requires Possible(cfg, s, step)
  {
    match step
    case Write(q, file, noticed) => q == p ==> noticed && (p in s.index ==> s.index[p].mtime < file.mtime)
    case Remove(q, noticed) => q == p ==> noticed
    case Collect => OneWord(s.pending, p)
    case ApplyNext =>
      s.worker.events != [] && s.worker.events[0].kind.Rename? && s.worker.events[0].oldPath.Some?
      && s.worker.events[0].path == p && p in s.disk ==>
        FaithfulRename(cfg.env, s.disk, s.index, s.worker.events[0].oldPath.value, p)
    case WalkSkip => p !in s.index
    case Report(who) => WalkOf(s, who).found == Some(p) ==> p in s.disk || Outstanding(s, p)
    case ReportGone(_, q) => q == p ==> p !in s.disk || Outstanding(s, p)
    case ReAdd => !s.rescan
    case _ => true
  }

  /** What is yet to be queued about the path ends with the truth, in whatever order a batch goes. */
  predicate Truthful(s: State, p: string) {
    if Heard(s.pending, p) then Hears(s.pending, p, p in s.disk)
    else !Hears(s.batch, p, p !in s.disk)
  }

  /** Known or told by its mtime: if everything on its way were dropped for a walk, nothing would be lost. */
  predicate Recoverable(cfg: Config, s: State, p: string) {
    InSync(cfg, s, p) || WalkTells(s, p)
  }

  ghost predicate OrderlyInv(cfg: Config, s: State, p: string) {
    QueueInv(cfg, s) && PathInv(cfg, s, p, false) && Truthful(s, p) && Recoverable(cfg, s, p)
  }

  /** The notices yet to come stay truthful. */
  lemma StaysTruthful(cfg: Config, s: State, step: Step, p: string)
    requires QueueInv(cfg, s) && Truthful(s, p) && Possible(cfg, s, step) && Orderly(cfg, s, step, p)
    ensures Truthful(Next(cfg, s, step), p)
  {
    hide InSync, ApplyEvent, Drifted, Coalesced, Dispatched, Enqueue, QueueInv, BeginWalk, FaithfulRename;
    var s' := Next(cfg, s, step);
    if step.Write? || step.Remove? {
      ChangeStaysTruthful(cfg, s, step, p);
    } else {
      assert OnDisk(s'.disk, p) == OnDisk(s.disk, p);
      assert s'.pending == if step.Collect? then {} else s.pending;
      assert s'.batch == if step.Collect? then s.pending else if step.Deliver? then s.batch - {step.notice} else s.batch;
      hide Next;
    }
  }

  lemma ChangeStaysTruthful(cfg: Config, s: State, step: Step, p: string)
    requires Truthful(s, p) && Possible(cfg, s, step) && Orderly(cfg, s, step, p) && (step.Write? || step.Remove?)
    ensures Truthful(Next(cfg, s, step), p)
  {
    var s' := Next(cfg, s, step);
    assert forall k: Kind :: p != step.path ==> (Event(k, p, None) in s'.pending <==> Event(k, p, None) in s.pending);
  }

  /** So is what keeps the path recoverable. */
  lemma StaysRecoverable(cfg: Config, s: State, step: Step, p: string)
    requires QueueInv(cfg, s) && Recoverable(cfg, s, p) && Possible(cfg, s, step) && Orderly(cfg, s, step, p)
    ensures Recoverable(cfg, Next(cfg, s, step), p)
  {
    var s' := Next(cfg, s, step);
    if step.ApplyNext? && s.worker.events != [] {
      assert WellShaped(InFlight(s)[0]);
      ApplyRecovers(cfg, s, s.worker.events[0], p);
    } else if (step.Write? || step.Remove?) && step.path == p {
      hide QueueInv;
    } else {
      assert s'.index == s.index && OnDisk(s'.disk, p) == OnDisk(s.disk, p);
      SameAt(cfg, s, s', p);
      hide Next, InSync, WalkTells;
    }
  }

  lemma ApplyRecovers(cfg: Config, s: State, e: Event, p: string)
    requires Recoverable(cfg, s, p) && WellShaped(e)
    requires e.kind.Rename? && e.path == p && p in s.disk ==>
               FaithfulRename(cfg.env, s.disk, s.index, e.oldPath.value, p)
    ensures Recoverable(cfg, s.(index := ApplyEvent(cfg.env, s.disk, s.index, e)), p)
  {
    var s' := s.(index := ApplyEvent(cfg.env, s.disk, s.index, e));
    if Says(e, p).None? {
      EventFrame(cfg.env, s.disk, s.index, e, p);
      SameAt(cfg, s, s', p);
      hide InSync, WalkTells, ApplyEvent;
    }
  }

  /** An orderly step is safe. */
  lemma OrderlyIsSafe(cfg: Config, s: State, step: Step, p: string)
    requires OrderlyInv(cfg, s, p) && Possible(cfg, s, step) && Orderly(cfg, s, step, p)
    ensures SafeFor(cfg, s, step, p, false) && !Silent(step, p)
  {
    match step
    case Deliver(e) => DeliverIsSafe(cfg, s, e, p);
    case Report(who) =>
      var q := WalkOf(s, who).found.value;
      TrueIsSafe(cfg, s, Told(s, who), DriftEvent(WalkOf(s, who).recorded, q), p);
    case ReportGone(who, q) => TrueIsSafe(cfg, s, ReportedGone(s, who, q), Event(Delete, q, None), p);
    case ReAdd => hide InSync, LastSays;
    case ApplyNext => assert s.worker.events != [] ==> WellShaped(InFlight(s)[0]);
      hide InSync, LastSays, FaithfulRename;
    case _ => hide InSync, LastSays;
  }

  /** Queueing the truth, or something a notice is to follow, is safe: a walk recovers whatever is dropped. */
  lemma TrueIsSafe(cfg: Config, s: State, s1: State, e: Event, p: string)
    requires Recoverable(cfg, s, p)
    requires s1.disk == s.disk && s1.index == s.index
    requires Outstanding(s1, p) || (Says(e, p).Some? ==> Says(e, p).value == (p in s1.disk))
    ensures SafeToQueue(cfg, s1, e, p, false)
  {
    SameAt(cfg, s, s1, p);
    SameAt(cfg, s, s1.(rescan := true), p);
    hide InSync, WalkTells, LastSays, Says;
  }

  lemma DeliverIsSafe(cfg: Config, s: State, e: Event, p: string)
    requires OrderlyInv(cfg, s, p) && e in s.batch
    ensures SafeFor(cfg, s, Deliver(e), p, false)
  {
    var rest := s.(batch := s.batch - {e});
    assert Raw(e);
    assert Outstanding(rest, p) || (Says(e, p).Some? ==> Says(e, p).value == (p in rest.disk));
    hide SafeToQueue, Outstanding, Says;
    TrueIsSafe(cfg, s, rest, e, p);
  }

  ghost predicate OrderlyRun(cfg: Config, states: seq<State>, steps: seq<Step>, n: nat, p: string)
    requires Run(cfg, states, steps) && n <= |steps|
  {
    forall i :: 0 <= i < n ==> Orderly(cfg, states[i], steps[i], p)
  }

  /** In an orderly run every step is safe, so that a path in sync at the start is accounted for all along. */
  lemma {:induction false} OrderlyRunIsSafe(cfg: Config, states: seq<State>, steps: seq<Step>, n: nat, p: string)
    requires Run(cfg, states, steps) && n <= |steps| && Walks(cfg, p) && OrderlyInv(cfg, states[0], p)
    requires OrderlyRun(cfg, states, steps, n, p)
    ensures SafeRun(cfg, states, steps, n, p, false) && OrderlyInv(cfg, states[n], p)
    decreases n
  {
    if n > 0 {
      OrderlyRunIsSafe(cfg, states, steps, n - 1, p);
      var s, step := states[n - 1], steps[n - 1];
      OrderlyIsSafe(cfg, s, step, p);
      StaysTruthful(cfg, s, step, p);
      StaysRecoverable(cfg, s, step, p);
      StepKeepsQueue(cfg, s, step);
      hide QueueInv, PathInv, Truthful, Recoverable, Orderly, SafeFor, Next, Possible;
      StepExact(cfg, s, step, p, false);
    }
  }

  lemma InitOrderly(cfg: Config, s: State, p: string)
    requires Init(cfg, s, p)
    ensures OrderlyInv(cfg, s, p)
  {
    InitInv(cfg, s, p, false);
  }

  /** No update is lost in an orderly run. */
  lemma NothingLostInOrder(cfg: Config, states: seq<State>, steps: seq<Step>, n: nat, p: string)
    requires Run(cfg, states, steps) && Init(cfg, states[0], p) && n <= |steps|
    requires Walks(cfg, p) && OrderlyRun(cfg, states, steps, n, p)
    ensures !InSync(cfg, states[n], p) ==> Mentioned(states[n], p) || Rescanned(states[n], p, false)
    ensures Quiescent(states[n]) ==> InSync(cfg, states[n], p)
  {
    hide OrderlyRun, OrderlyInv, Init, InSync, Quiescent, Mentioned, Rescanned;
    InitOrderly(cfg, states[0], p);
    OrderlyRunIsSafe(cfg, states, steps, n, p);
    NoLostUpdate(cfg, states, steps, n, p);
  }

  /** So at rest after an orderly run, what a search sees of an accepted file is what indexing it from nothing shows. */
  lemma ReindexedInOrder(cfg: Config, project: string, states: seq<State>, steps: seq<Step>,
                         full: seq<IndexModel.Index>, rows: seq<seq<nat>>, p: string)
    requires CollisionFree(cfg.env) && JointRun(cfg, project, states, steps, full, rows)
    requires IndexProofs.Sound(cfg.env, full[0]) && Project(full[0], project) == states[0].index
    requires Init(cfg, states[0], p) && Walks(cfg, p) && OrderlyRun(cfg, states, steps, |steps|, p)
    requires Quiescent(states[|steps|])
    ensures var disk, s, key := states[|steps|].disk, full[|steps|], IndexModel.Key(project, p);
            if p in disk
            then Indexable(cfg.env, disk, p) ==>
                   IndexProofs.Retrieved(s, key) == IndexProofs.FromScratch(cfg.env, disk[p].content)
            else key !in s.files
  {
    hide OrderlyRun, OrderlyInv, Init, Quiescent, IndexProofs.Sound, IndexProofs.Retrieved, IndexProofs.FromScratch, Project;
    InitOrderly(cfg, states[0], p);
    OrderlyRunIsSafe(cfg, states, steps, |steps|, p);
    QuiescentMeansReindexed(cfg, project, states, steps, full, rows, p);
  }
}
