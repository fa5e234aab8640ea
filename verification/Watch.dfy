/** The watcher as a state machine: disk changes, notices, the bounded queue, drains and walks interleave. */
module Watch {
  import opened Prelude
  import opened Records
  import opened Events
  import opened EventProofs
  import opened PathIndex

  /** `capacity` is `queue_size`; `walkable` is what the mtime walk descends into, and `watched` what the watch
      filter lets through, which goes by the absolute path and so depends on where the project lies. */
  datatype Config = Config(env: Env, capacity: nat, walkable: string -> bool, watched: string -> bool)

  /** If the filter chain ever accepts a file at this path, the walk meets it. */
  ghost predicate Walks(cfg: Config, p: string) {
    forall c :: cfg.env.shouldIndex(p, c) ==> cfg.walkable(p)
  }

  /** Changes of this path are noticed, and walks meet it if it matters. */
  ghost predicate Followed(cfg: Config, p: string) {
    cfg.watched(p) && Walks(cfg, p)
  }

  /** A running mtime walk: the file table it read, the paths still to meet, those met, the one found new or newer
      that it has not queued yet, and those reported gone. */
  datatype Walk = Walk(recorded: map<string, int>, todo: set<string>, seen: set<string>, found: Option<string>,
                       reported: set<string>)

  /** The drain worker: idle, applying a coalesced batch, holding a rescan it has not begun, or walking. */
  datatype Worker = Idle | Applying(events: seq<Event>) | Ticket | Walking(walk: Walk)

  /** `pending` are the changes gathered since `awatch` last handed over a batch, `batch` what is left to queue of the
      batch it handed over last. Both are sets: they keep no order. */
  datatype State = State(disk: Disk, index: Paths, pending: set<Event>, batch: set<Event>, queue: seq<Event>, rescan: bool,
                         worker: Worker, sweep: Option<Walk>)

  // ---------------------------------------------------------------- the queue

  /** `_enqueue_event`: drop under rescan, append, and on overflow drop everything and flag a rescan. */
  function Enqueue(queue: seq<Event>, rescan: bool, e: Event, capacity: nat): (seq<Event>, bool) {
    if rescan then (queue, true)
    else if |queue| + 1 > capacity then ([], true)
    else (queue + [e], false)
  }

  function Queued(cfg: Config, s: State, e: Event): State {
    var (queue, rescan) := Enqueue(s.queue, s.rescan, e, cfg.capacity);
    s.(queue := queue, rescan := rescan)
  }

  // ---------------------------------------------------------------- walks

  function BeginWalk(cfg: Config, s: State): Walk {
    Walk(map p | p in s.index :: s.index[p].mtime, set p | p in s.disk && cfg.walkable(p), {}, None, {})
  }

  /** Does the walk find this file new or newer than recorded? */
  predicate Drifted(w: Walk, disk: Disk, p: string)
    requires p in disk
  {
    p !in w.recorded || disk[p].mtime > w.recorded[p]
  }

  datatype Who = ByWorker | BySweep

  predicate Running(s: State, who: Who) {
    if who.ByWorker? then s.worker.Walking? else s.sweep.Some?
  }

  function WalkOf(s: State, who: Who): Walk
    requires Running(s, who)
  {
    if who.ByWorker? then s.worker.walk else s.sweep.value
  }

  function SetWalk(s: State, who: Who, w: Walk): State {
    if who.ByWorker? then s.(worker := Walking(w)) else s.(sweep := Some(w))
  }

  /** The walk has met the path, has found it new or newer, has queued what it found, has come where the path no longer
      is, or has reported it gone. */
  function Met(s: State, who: Who, p: string): State
    requires Running(s, who)
  {
    var w := WalkOf(s, who);
    SetWalk(s, who, w.(todo := w.todo - {p}, seen := w.seen + {p}))
  }

  function Found(s: State, who: Who, p: string): State
    requires Running(s, who)
  {
    var w := WalkOf(s, who);
    SetWalk(s, who, w.(todo := w.todo - {p}, seen := w.seen + {p}, found := Some(p)))
  }

  function Told(s: State, who: Who): State
    requires Running(s, who)
  {
    SetWalk(s, who, WalkOf(s, who).(found := None))
  }

  function Missed(s: State, who: Who, p: string): State
    requires Running(s, who)
  {
    var w := WalkOf(s, who);
    SetWalk(s, who, w.(todo := w.todo - {p}))
  }

  function ReportedGone(s: State, who: Who, p: string): State
    requires Running(s, who)
  {
    var w := WalkOf(s, who);
    SetWalk(s, who, w.(reported := w.reported + {p}))
  }

  function DriftEvent(recorded: map<string, int>, p: string): Event {
    Event(if p in recorded then Modify else Create, p, None)
  }

  // ---------------------------------------------------------------- steps

  /** `noticed` says whether a change reaches `awatch` at all. */
  datatype Step =
    | Write(path: string, file: DiskFile, noticed: bool)
    | Remove(path: string, noticed: bool)
    | Collect
    | Deliver(notice: Event)
    | DrainBegin(expired: bool)
    | ApplyNext
    | WalkStart(who: Who)
    | WalkSkip
    | Visit(who: Who, path: string)
    | Glimpse(who: Who, path: string)
    | Report(who: Who)
    | ReportGone(who: Who, path: string)
    | WalkFinish(who: Who)
    | ReAdd

  /** What the code and the file system can do next. A watched path may go unnoticed as well, while `awatch` is down. */
  predicate Possible(cfg: Config, s: State, step: Step) {
    match step
    case Write(p, _, noticed) => noticed ==> cfg.watched(p)
    case Remove(p, noticed) => p in s.disk && (noticed ==> cfg.watched(p))
    case Collect => s.batch == {} && s.pending != {}
    case Deliver(e) => e in s.batch
    case DrainBegin(expired) => s.worker.Idle? && (s.rescan || (expired && s.queue != []))
    case ApplyNext => s.worker.Applying?
    case WalkStart(who) => if who.ByWorker? then s.worker.Ticket? else s.sweep.None?
    case WalkSkip => s.worker.Ticket? && s.disk == map[]
    case Visit(who, p) =>
      && Running(s, who) && WalkOf(s, who).found.None? && p !in WalkOf(s, who).seen
      && (p in WalkOf(s, who).todo || (p in s.disk && cfg.walkable(p)))
    case Glimpse(who, p) =>
      && Running(s, who) && WalkOf(s, who).found.None?
      && p in WalkOf(s, who).todo && p !in WalkOf(s, who).seen && p !in s.disk
    case Report(who) => Running(s, who) && WalkOf(s, who).found.Some?
    case ReportGone(who, p) =>
      && Running(s, who) && WalkOf(s, who).found.None? && WalkOf(s, who).todo == {}
      && p in WalkOf(s, who).recorded && p !in WalkOf(s, who).seen && p !in WalkOf(s, who).reported
    case WalkFinish(who) =>
      && Running(s, who) && WalkOf(s, who).found.None? && WalkOf(s, who).todo == {}
      && WalkOf(s, who).recorded.Keys <= WalkOf(s, who).seen + WalkOf(s, who).reported
    case ReAdd => true
  }

  /** The notice a change leaves, if it leaves one. */
  function Notice(noticed: bool, kind: Kind, p: string): set<Event> {
    if noticed then {Event(kind, p, None)} else {}
  }

  function Next(cfg: Config, s: State, step: Step): State
    requires Possible(cfg, s, step)
  {
    match step
    case Write(p, file, noticed) =>
      s.(disk := s.disk[p := file], pending := s.pending + Notice(noticed, if p in s.disk then Modify else Create, p))
    case Remove(p, noticed) => s.(disk := s.disk - {p}, pending := s.pending + Notice(noticed, Delete, p))
    case Collect => s.(pending := {}, batch := s.pending)
    case Deliver(e) => Queued(cfg, s.(batch := s.batch - {e}), e)
    case DrainBegin(expired) =>
      // A flagged rescan discards whatever else was drained with it.
      var events := if expired then s.queue else [];
      s.(queue := if expired then [] else s.queue, rescan := false,
         worker := if s.rescan then Ticket else Applying(Dispatched(Coalesced(events))))
    case ApplyNext =>
      if s.worker.events == [] then s.(worker := Idle)
      else s.(index := ApplyEvent(cfg.env, s.disk, s.index, s.worker.events[0]),
              worker := Applying(s.worker.events[1..]))
    case WalkStart(who) => SetWalk(s, who, BeginWalk(cfg, s))
    case WalkSkip => s.(worker := Idle) // the root is missing
    case Visit(who, p) =>
      if p !in s.disk then Missed(s, who, p)
      else if Drifted(WalkOf(s, who), s.disk, p) then Found(s, who, p)
      else Met(s, who, p)
    case Glimpse(who, p) => Met(s, who, p) // listed while it was there, gone when its mtime is read
    case Report(who) => Queued(cfg, Told(s, who), DriftEvent(WalkOf(s, who).recorded, WalkOf(s, who).found.value))
    case ReportGone(who, p) => Queued(cfg, ReportedGone(s, who, p), Event(Delete, p, None))
    case WalkFinish(who) => if who.ByWorker? then s.(worker := Idle) else s.(sweep := None)
    case ReAdd => s.(rescan := false)
  }

  /** Runs the steps one after the other, as long as each is possible. */
  function Exec(cfg: Config, s: State, steps: seq<Step>): Option<State>
    decreases |steps|
  {
    if steps == [] then Some(s)
    else if !Possible(cfg, s, steps[0]) then None
    else Exec(cfg, Next(cfg, s, steps[0]), steps[1..])
  }

  // ---------------------------------------------------------------- what every step keeps

  /** The index says of this path what the disk does. It may also hold a record of a file the filter has come to reject,
      which is not what a rebuild would give (`Rebuild.RebuiltExact`). */
  predicate InSync(cfg: Config, s: State, p: string) {
    if p in s.disk then Indexable(cfg.env, s.disk, p) ==> HashAt(s.index, p) == Some(DiskHash(cfg.env, s.disk, p))
    else p !in s.index
  }

  /** `pending_updates`. */
  function PendingUpdates(s: State): nat { |s.queue| }

  /** Is there a notice about this path? Does one say that it is there, or that it is gone? */
  predicate Heard(notices: set<Event>, p: string) {
    Hears(notices, p, true) || Hears(notices, p, false)
  }

  predicate Hears(notices: set<Event>, p: string, there: bool) {
    if there then Event(Create, p, None) in notices || Event(Modify, p, None) in notices
    else Event(Delete, p, None) in notices
  }

  /** A notice about this path is yet to be queued. */
  predicate Outstanding(s: State, p: string) { Heard(s.pending, p) || Heard(s.batch, p) }

  function InFlight(s: State): seq<Event> {
    if s.worker.Applying? then s.worker.events else []
  }

  /** The running walk will still emit an event for this path. */
  predicate WillReport(w: Walk, disk: Disk, p: string) {
    if p in disk then w.found == Some(p) || (p in w.todo && Drifted(w, disk, p))
    else p in w.recorded && p !in w.todo && p !in w.seen && p !in w.reported
  }

  /** A walk begun now would tell the path from what is recorded. */
  predicate WalkTells(s: State, p: string) {
    p in s.disk && p in s.index ==> s.index[p].mtime < s.disk[p].mtime
  }

  predicate Mentioned(s: State, p: string) {
    Outstanding(s, p) || LastSays(s.queue, p).Some? || LastSays(InFlight(s), p).Some?
  }

  /** A rescan is flagged, handed over, or under way and not past this path yet; or the periodic walk is. */
  predicate Rescanned(s: State, p: string, bySweep: bool) {
    || ((s.rescan || s.worker.Ticket?) && WalkTells(s, p))
    || (s.worker.Walking? && WillReport(s.worker.walk, s.disk, p))
    || (bySweep && Swept(s, p))
  }

  /** The periodic walk is under way and not past this path yet. */
  predicate Swept(s: State, p: string) {
    s.sweep.Some? && WillReport(s.sweep.value, s.disk, p)
  }

  /** Nothing on its way mentions the path: it is in sync, or a walk will tell. */
  predicate Known(cfg: Config, s: State, p: string, bySweep: bool) {
    InSync(cfg, s, p) || Rescanned(s, p, bySweep)
  }

  /** A notice about the path is yet to be queued, or the last word on its way is true. One already drained may be wrong
      under a flagged rescan, which it leaves something to find for. With no word on its way the path is in sync, or a walk
      will tell. */
  predicate Accounted(cfg: Config, s: State, p: string, bySweep: bool) {
    Outstanding(s, p) ||
    if LastSays(s.queue, p).Some? then LastSays(s.queue, p).value == (p in s.disk)
    else if LastSays(InFlight(s), p).Some? then LastSays(InFlight(s), p).value == (p in s.disk) || s.rescan
    else Known(cfg, s, p, bySweep)
  }

  predicate PathInv(cfg: Config, s: State, p: string, bySweep: bool) {
    Accounted(cfg, s, p, bySweep) && (p in s.index ==> cfg.walkable(p))
  }

  /** A coalesced event is raw or a rename between two different paths. */
  predicate WellShaped(e: Event) {
    if e.kind.Rename? then e.oldPath.Some? && e.oldPath.value != e.path else e.oldPath.None?
  }

  ghost predicate QueueInv(cfg: Config, s: State) {
    && |s.queue| <= cfg.capacity
    && (s.rescan ==> s.queue == [])
    && AllRaw(s.queue) && (forall e :: e in s.pending + s.batch ==> Raw(e))
    && forall i :: 0 <= i < |InFlight(s)| ==> WellShaped(InFlight(s)[i])
  }

  ghost predicate Inv(cfg: Config, s: State) {
    QueueInv(cfg, s) && forall p :: Followed(cfg, p) ==> PathInv(cfg, s, p, false)
  }

  // ---------------------------------------------------------------- what a step must not do

  /** Queueing drops everything queued, because a rescan is flagged or the queue overflows. */
  predicate Drops(cfg: Config, s: State) {
    s.rescan || |s.queue| + 1 > cfg.capacity
  }

  /** Queueing an event about `p` says the truth, unless a notice is yet to come; and if events are dropped, a path they
      mentioned is in sync, mentioned elsewhere, or told by the walk that will stand in for them. */
  predicate SafeToQueue(cfg: Config, s: State, e: Event, p: string, bySweep: bool) {
    !Outstanding(s, p) ==>
      if Drops(cfg, s)
      then LastSays(s.queue + [e], p).Some? && LastSays(InFlight(s), p).None? ==>
             Known(cfg, s.(rescan := true), p, bySweep)
      else Says(e, p).Some? ==> Says(e, p).value == (p in s.disk)
  }

  /** Nothing in the queue or to come mentions the path. */
  predicate Unmentioned(s: State, p: string) {
    !Outstanding(s, p) && LastSays(s.queue, p).None?
  }

  /** The rename at the head of the batch gives its destination what reading it would, or leaves it to a walk. */
  predicate SafeToRename(cfg: Config, s: State, e: Event, p: string, bySweep: bool) {
    p == e.path && p in s.disk && e.kind.Rename? && e.oldPath.Some? ==>
      || FaithfulRename(cfg.env, s.disk, s.index, e.oldPath.value, p)
      || (s.rescan && e.oldPath.value !in s.index && WalkTells(s, p))
      || (bySweep && Swept(s, p))
  }

  /** What one path asks of one step. */
  predicate SafeFor(cfg: Config, s: State, step: Step, p: string, bySweep: bool)
    requires Possible(cfg, s, step)
  {
    match step
    case Deliver(e) => SafeToQueue(cfg, s.(batch := s.batch - {e}), e, p, bySweep)
    case ApplyNext =>
      s.worker.events != [] && Unmentioned(s, p) && LastSays(s.worker.events[1..], p).None? ==>
        SafeToRename(cfg, s, s.worker.events[0], p, bySweep)
    case WalkSkip => Unmentioned(s, p) ==> Known(cfg, s.(worker := Idle), p, bySweep)
    case Report(who) =>
      SafeToQueue(cfg, Told(s, who), DriftEvent(WalkOf(s, who).recorded, WalkOf(s, who).found.value), p, bySweep)
    case ReportGone(who, q) => SafeToQueue(cfg, ReportedGone(s, who, q), Event(Delete, q, None), p, bySweep)
    case ReAdd =>
      s.rescan && Unmentioned(s, p) ==>
        if LastSays(InFlight(s), p).Some? then LastSays(InFlight(s), p).value == (p in s.disk)
        else Known(cfg, s.(rescan := false), p, bySweep)
    case _ => true
  }

  /** What all followed paths ask of a step. */
  ghost predicate Safe(cfg: Config, s: State, step: Step)
    requires Possible(cfg, s, step)
  {
    forall p :: Followed(cfg, p) ==> SafeFor(cfg, s, step, p, false)
  }

  /** The step changes the path, and no notice says so. */
  predicate Silent(step: Step, p: string) {
    (step.Write? || step.Remove?) && step.path == p && !step.noticed
  }
}
