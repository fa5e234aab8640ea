/** Why the no-lost-update theorem asks what it asks: runs in which one step is unsafe, and an update is lost. */
module WatchLimits {
  import opened Prelude
  import opened Records
  import opened Events
  import opened EventProofs
  import opened PathIndex
  import opened Watch
  import opened WatchProofs
  import opened OrderlyRuns
  import opened Rebuild
  import opened Storm

  /** A quiet project with these files, all indexed. */
  function Settled(env: Env, disk: Disk): State {
    State(disk, map p | p in disk :: Entry(env.fileHash(disk[p].content), disk[p].mtime), {}, {}, [], false, Idle, None)
  }

  lemma SettledIsInit(cfg: Config, disk: Disk, p: string)
    requires p in disk ==> cfg.walkable(p)
    ensures Init(cfg, Settled(cfg.env, disk), p)
  {
  }

  /** The steps can be taken one after the other; step number `slip` is not safe for the path, all others are. */
  predicate SlipsAt(cfg: Config, s: State, steps: seq<Step>, slip: int, p: string)
    decreases |steps|
  {
    steps == []
    || (&& Possible(cfg, s, steps[0]) && !Silent(steps[0], p)
        && (SafeFor(cfg, s, steps[0], p, false) <==> slip != 0)
        && SlipsAt(cfg, Next(cfg, s, steps[0]), steps[1..], slip - 1, p))
  }

  predicate Reaches(cfg: Config, s: State, steps: seq<Step>, end: State, slip: int, p: string) {
    Exec(cfg, s, steps) == Some(end) && SlipsAt(cfg, s, steps, slip, p)
  }

  /** From a quiet start, one unsafe step and otherwise safe ones lead to a state at rest with the path out of sync. */
  predicate LosesUpdate(cfg: Config, s: State, steps: seq<Step>, slip: int, end: State, p: string) {
    && 0 <= slip < |steps| && Reaches(cfg, s, steps, end, slip, p)
    && Quiescent(end) && !InSync(cfg, end, p)
  }

  lemma {:induction false} SlipsSnoc(cfg: Config, s: State, steps: seq<Step>, s1: State, step: Step, slip: int, p: string)
    requires Reaches(cfg, s, steps, s1, slip, p) && Possible(cfg, s1, step) && !Silent(step, p)
    requires SafeFor(cfg, s1, step, p, false) <==> slip != |steps|
    ensures SlipsAt(cfg, s, steps + [step], slip, p)
    decreases |steps|
  {
    hide SafeFor, Next, Possible;
    if steps == [] {
      assert [step][1..] == [];
      assert [] + [step] == [step];
    } else {
      assert (steps + [step])[1..] == steps[1..] + [step];
      SlipsSnoc(cfg, Next(cfg, s, steps[0]), steps[1..], s1, step, slip - 1, p);
    }
  }

  /** Extends a run by one step. */
  lemma Then(cfg: Config, s: State, steps: seq<Step>, s1: State, step: Step, s2: State, slip: int, p: string)
    requires Reaches(cfg, s, steps, s1, slip, p) && Possible(cfg, s1, step) && !Silent(step, p)
    requires Next(cfg, s1, step) == s2 && (SafeFor(cfg, s1, step, p, false) <==> slip != |steps|)
    ensures Reaches(cfg, s, steps + [step], s2, slip, p)
  {
    ExecSnoc(cfg, s, steps, step);
    SlipsSnoc(cfg, s, steps, s1, step, slip, p);
  }

  lemma Here(cfg: Config, s: State, slip: int, p: string)
    ensures Reaches(cfg, s, [], s, slip, p)
  {
  }

  // ---------------------------------------------------------------- small batches

  lemma DispatchedOne(e: Event)
    ensures Dispatched([e]) == [e]
  {
    assert [e][..0] == [];
    assert Updates([]) == [] && Tail([]) == [];
  }

  lemma TwoPaths(a: string, b: string, es: seq<Event>)
    requires a != b && es == [Event(Delete, a, None), Event(Create, b, None)]
    ensures Order(es) == [a, b]
    ensures Surviving(es, a).kind == Delete && Surviving(es, b).kind == Create
  {
    var d := [es[0]];
    assert es[..1] == d && d[..0] == [];
    assert Order(d) == [a] && Order(es) == [a, b];
    assert LastFor(d, a) == Some(es[0]);
    assert LastFor(es, a) == Some(es[0]) && LastFor(es, b) == Some(es[1]);
    assert FirstIndex(es, b, Delete).None?;
  }

  lemma PairOf(a: string, b: string, es: seq<Event>)
    requires a != b && es == [Event(Delete, a, None), Event(Create, b, None)]
    ensures Order(es) == [a, b] && RenamePair(es) == Some((a, b))
  {
    TwoPaths(a, b, es);
    hide Surviving, LastFor, Order;
    assert [a, b][..1] == [a] && [a][..0] == [];
    assert OfKind(es, [], Delete) == [] && OfKind(es, [], Create) == [];
    assert OfKind(es, [a], Delete) == [a] && OfKind(es, [a], Create) == [];
    assert OfKind(es, [a, b], Delete) == [a] && OfKind(es, [a, b], Create) == [b];
  }

  /** A DELETE and a CREATE of another path in one batch always fold into a RENAME. */
  lemma DeleteThenCreate(a: string, b: string)
    requires a != b
    ensures Dispatched(Coalesced([Event(Delete, a, None), Event(Create, b, None)])) == [Event(Rename, b, Some(a))]
  {
    var es := [Event(Delete, a, None), Event(Create, b, None)];
    PairOf(a, b, es);
    DispatchedOne(Event(Rename, b, Some(a)));
    hide Order, RenamePair, Surviving, Dispatched;
    assert [a, b][..1] == [a] && [a][..0] == [];
    assert Emit(es, []) == [];
    assert Emit(es, [a]) == [];
    assert Emit(es, [a, b]) == [Event(Rename, b, Some(a))];
  }

  lemma {:induction false} OnePath(es: seq<Event>, p: string)
    requires es != [] && forall i :: 0 <= i < |es| ==> es[i].path == p
    ensures Order(es) == [p] && LastFor(es, p) == Some(es[|es| - 1])
    decreases |es|
  {
    var k := |es| - 1;
    if k == 0 {
      assert es[..0] == [] && Order(es[..0]) == [];
      assert [] + [p] == [p];
    } else {
      OnePath(es[..k], p);
    }
  }

  /** Of several events about one path only the last is left, as it is unless it is a CREATE. */
  lemma LastOnly(es: seq<Event>, p: string, e: Event)
    requires es != [] && e == es[|es| - 1] && Raw(e) && (e.kind.Create? ==> |es| == 1)
    requires forall i :: 0 <= i < |es| ==> es[i].path == p
    ensures Dispatched(Coalesced(es)) == [e]
  {
    OnePath(es, p);
    assert !Before(FirstIndex(es, p, Delete), FirstIndex(es, p, Create)) || !e.kind.Create?;
    assert Surviving(es, p) == e;
    hide Order, LastFor, Surviving, FirstIndex;
    assert [p][..0] == [] && OfKind(es, [], Create) == [] && OfKind(es, [], Delete) == [];
    if e.kind.Delete? {
      assert OfKind(es, [p], Create) == [];
    } else {
      assert OfKind(es, [p], Delete) == [];
    }
    assert RenamePair(es).None?;
    hide RenamePair, OfKind;
    assert Emit(es, []) == [] && Emit(es, [p]) == [e];
    DispatchedOne(e);
  }

  // ---------------------------------------------------------------- the runs

  /** A change of a path, gathered, handed over and queued. */
  function Noted(change: Step, e: Event): (r: seq<Step>)
    ensures |r| == 3
  {
    [change] + [Collect] + [Deliver(e)]
  }

  /** With room in the queue a noticed change on a quiet project is queued, safely. */
  lemma ChangeQueued(cfg: Config, s0: State, steps: seq<Step>, s: State, change: Step, e: Event, slip: int, p: string)
    requires Reaches(cfg, s0, steps, s, slip, p) && (slip < |steps| || slip > |steps| + 2)
    requires Possible(cfg, s, change) && (change.Write? || change.Remove?) && change.noticed && change.path == p
    requires e == Event(if change.Remove? then Delete else if p in s.disk then Modify else Create, p, None)
    requires s.pending == {} && s.batch == {} && !s.rescan && |s.queue| < cfg.capacity
    ensures Reaches(cfg, s0, steps + Noted(change, e), Next(cfg, s, change).(pending := {}, queue := s.queue + [e]), slip, p)
  {
    var s1 := Next(cfg, s, change);
    var s2 := s1.(pending := {}, batch := {e});
    var s3 := s2.(batch := {}, queue := s.queue + [e]);
    assert s1.pending == {e} && {e} - {e} == {};
    assert s1.(pending := {}).batch == {};
    assert steps + Noted(change, e) == steps + [change] + [Collect] + [Deliver(e)];
    hide Reaches, LastSays;
    Then(cfg, s0, steps, s, change, s1, slip, p);
    Then(cfg, s0, steps + [change], s1, Collect, s2, slip, p);
    Then(cfg, s0, steps + [change] + [Collect], s2, Deliver(e), s3, slip, p);
  }

  /** A drained batch is in neither count: nothing is pending, yet the written file is not indexed. */
  lemma PendingZeroIsNotIndexed(cfg: Config, p: string, file: DiskFile)
    requires cfg.capacity >= 1 && cfg.env.shouldIndex(p, file.content) && cfg.watched(p)
    ensures var steps := Noted(Write(p, file, true), Event(Create, p, None)) + [DrainBegin(true)];
            var end := Exec(cfg, Settled(cfg.env, map[]), steps);
            && end.Some? && PendingUpdates(end.value) == 0 && !Outstanding(end.value, p)
            && !InSync(cfg, end.value, p) && !Quiescent(end.value)
  {
    hide Exec, Settled, SlipsAt, Dispatched, Coalesced;
    var end := WrittenAndDrained(cfg, p, file, -1);
  }

  lemma WrittenAndDrained(cfg: Config, p: string, file: DiskFile, slip: int) returns (end: State)
    requires cfg.capacity >= 1 && cfg.watched(p) && (slip < 0 || slip > 3)
    ensures end == State(map[p := file], map[], {}, {}, [], false,
                         Applying(Dispatched(Coalesced([Event(Create, p, None)]))), None)
    ensures Reaches(cfg, Settled(cfg.env, map[]), Noted(Write(p, file, true), Event(Create, p, None)) + [DrainBegin(true)],
                    end, slip, p)
  {
    var change, e := Write(p, file, true), Event(Create, p, None);
    var s1 := WrittenQueued(cfg, p, file, slip);
    end := s1.(queue := [], worker := Applying(Dispatched(Coalesced([e]))));
    hide Reaches, Dispatched, Coalesced, Settled, SafeFor;
    AlwaysSafe(cfg, s1, DrainBegin(true), p, false);
    Then(cfg, Settled(cfg.env, map[]), Noted(change, e), s1, DrainBegin(true), end, slip, p);
  }

  /** A new file written and its notice queued. */
  lemma WrittenQueued(cfg: Config, p: string, file: DiskFile, slip: int) returns (s: State)
    requires cfg.capacity >= 1 && cfg.watched(p) && (slip < 0 || slip > 2)
    ensures s == State(map[p := file], map[], {}, {}, [Event(Create, p, None)], false, Idle, None)
    ensures Reaches(cfg, Settled(cfg.env, map[]), Noted(Write(p, file, true), Event(Create, p, None)), s, slip, p)
  {
    var s0 := State(map[], map[], {}, {}, [], false, Idle, None);
    assert Settled(cfg.env, map[]) == s0;
    var change, e := Write(p, file, true), Event(Create, p, None);
    s := s0.(disk := map[p := file], queue := [e]);
    Here(cfg, s0, slip, p);
    assert [] + Noted(change, e) == Noted(change, e) && s0.queue + [e] == [e];
    assert s0.disk[p := file] == map[p := file];
    hide Reaches, Settled;
    ChangeQueued(cfg, s0, [], s0, change, e, slip, p);
  }

  /** A batch that comes down to one event is drained in three steps; the middle one applies it. */
  lemma OneApplied(cfg: Config, s0: State, steps: seq<Step>, s: State, e: Event, slip: int, p: string)
    requires Reaches(cfg, s0, steps, s, slip, p) && s.worker.Idle? && !s.rescan
    requires s.queue != [] && s.pending == {} && s.batch == {}
    requires Dispatched(Coalesced(s.queue)) == [e] && slip != |steps| && slip != |steps| + 2
    requires SafeToRename(cfg, s, e, p, false) <==> slip != |steps| + 1
    ensures Reaches(cfg, s0, steps + [DrainBegin(true)] + [ApplyNext] + [ApplyNext],
                    s.(queue := [], index := ApplyEvent(cfg.env, s.disk, s.index, e)), slip, p)
  {
    var s1, s2, s3 := OneAppliedStates(cfg, s, e);
    hide Reaches, Next, Possible, SafeFor, SafeToRename;
    ApplySafe(cfg, s1, s, e, p);
    AlwaysSafe(cfg, s, DrainBegin(true), p, false);
    IdleSafe(cfg, s2, p);
    Then(cfg, s0, steps, s, DrainBegin(true), s1, slip, p);
    Then(cfg, s0, steps + [DrainBegin(true)], s1, ApplyNext, s2, slip, p);
    Then(cfg, s0, steps + [DrainBegin(true)] + [ApplyNext], s2, ApplyNext, s3, slip, p);
  }

  lemma OneAppliedStates(cfg: Config, s: State, e: Event) returns (s1: State, s2: State, s3: State)
    requires s.worker.Idle? && !s.rescan && s.queue != [] && Dispatched(Coalesced(s.queue)) == [e]
    ensures s1 == s.(queue := [], worker := Applying([e])) && s2.worker == Applying([])
    ensures s3 == s.(queue := [], index := ApplyEvent(cfg.env, s.disk, s.index, e))
    ensures Possible(cfg, s, DrainBegin(true)) && Next(cfg, s, DrainBegin(true)) == s1
    ensures Possible(cfg, s1, ApplyNext) && Next(cfg, s1, ApplyNext) == s2
    ensures Possible(cfg, s2, ApplyNext) && Next(cfg, s2, ApplyNext) == s3
  {
    hide ApplyEvent, Dispatched, Coalesced;
    s1 := s.(queue := [], worker := Applying([e]));
    s2 := s1.(index := ApplyEvent(cfg.env, s.disk, s.index, e), worker := Applying([]));
    s3 := s2.(worker := Idle);
    assert [e][1..] == [];
  }

  /** With nothing else on its way, applying an event is as safe as the rename it may be. */
  lemma ApplySafe(cfg: Config, s1: State, s: State, e: Event, p: string)
    requires s1 == s.(queue := [], worker := Applying([e])) && s.pending == {} && s.batch == {} && !s.worker.Walking?
    ensures SafeFor(cfg, s1, ApplyNext, p, false) <==> SafeToRename(cfg, s, e, p, false)
  {
    assert [e][1..] == [];
    NothingSaysNothing(p);
    hide LastSays, FaithfulRename;
  }

  lemma IdleSafe(cfg: Config, s: State, p: string)
    requires s.worker == Applying([])
    ensures SafeFor(cfg, s, ApplyNext, p, false)
  {
  }

  /** Deleting one file and creating an unrelated one in the same batch files the old content under the new
      path, for good: the new record carries the new file's mtime, so no walk ever sees a difference. */
  lemma UnrelatedRenameLosesUpdate(cfg: Config, a: string, b: string, removed: DiskFile, created: DiskFile)
    returns (steps: seq<Step>, end: State)
    requires cfg.capacity >= 2 && a != b && cfg.watched(a) && cfg.watched(b) && cfg.walkable(b)
    requires cfg.env.shouldIndex(b, created.content)
    requires cfg.env.fileHash(removed.content) != cfg.env.fileHash(created.content)
    ensures Init(cfg, Settled(cfg.env, map[a := removed]), b)
    ensures LosesUpdate(cfg, Settled(cfg.env, map[a := removed]), steps, 6, end, b) && steps[6].ApplyNext?
    ensures Lost(cfg, end, b)
  {
    hide Reaches, Dispatched, Coalesced, ApplyEvent, SafeToRename, Lost, InSync;
    SettledIsInit(cfg, map[a := removed], b);
    var t5, s5 := DeleteAndCreateQueued(cfg, a, b, removed, created, 6);
    DeleteThenCreate(a, b);
    end := State(map[b := created], map[b := Entry(cfg.env.fileHash(removed.content), created.mtime)],
                 {}, {}, [], false, Idle, None);
    MovesContent(cfg.env, a, b, removed, created);
    UnfaithfulSlips(cfg, a, b, removed, created);
    steps := t5 + [DrainBegin(true)] + [ApplyNext] + [ApplyNext];
    OneApplied(cfg, Settled(cfg.env, map[a := removed]), t5, s5, Event(Rename, b, Some(a)), 6, b);
  }

  /** The rename is not safe, and what it leaves behind is lost for good. */
  lemma UnfaithfulSlips(cfg: Config, a: string, b: string, removed: DiskFile, created: DiskFile)
    requires a != b && cfg.walkable(b) && cfg.env.shouldIndex(b, created.content)
    requires cfg.env.fileHash(removed.content) != cfg.env.fileHash(created.content)
    ensures var s4 := Settled(cfg.env, map[a := removed]).(
                        disk := map[b := created], queue := [Event(Delete, a, None), Event(Create, b, None)]);
            !SafeToRename(cfg, s4, Event(Rename, b, Some(a)), b, false)
    ensures var end := State(map[b := created], map[b := Entry(cfg.env.fileHash(removed.content), created.mtime)],
                             {}, {}, [], false, Idle, None);
            Lost(cfg, end, b) && !InSync(cfg, end, b)
  {
    NothingSaysNothing(b);
    var end := State(map[b := created], map[b := Entry(cfg.env.fileHash(removed.content), created.mtime)],
                     {}, {}, [], false, Idle, None);
    hide LastSays;
  }

  /** The rename carries the old hash to the new path. */
  lemma MovesContent(env: Env, a: string, b: string, removed: DiskFile, created: DiskFile)
    requires a != b && env.shouldIndex(b, created.content)
    ensures ApplyEvent(env, map[b := created], Settled(env, map[a := removed]).index, Event(Rename, b, Some(a)))
            == map[b := Entry(env.fileHash(removed.content), created.mtime)]
  {
    var idx := Settled(env, map[a := removed]).index;
    assert (idx - {a})[b := Entry(env.fileHash(removed.content), created.mtime)]
        == map[b := Entry(env.fileHash(removed.content), created.mtime)];
  }

  lemma DeleteAndCreateQueued(cfg: Config, a: string, b: string, removed: DiskFile, created: DiskFile, slip: int)
    returns (steps: seq<Step>, s: State)
    requires cfg.capacity >= 2 && a != b && cfg.watched(a) && cfg.watched(b) && slip > 4
    ensures s == Settled(cfg.env, map[a := removed]).(
                   disk := map[b := created], queue := [Event(Delete, a, None), Event(Create, b, None)])
    ensures |steps| == 5 && Reaches(cfg, Settled(cfg.env, map[a := removed]), steps, s, slip, b)
  {
    var d, c := Event(Delete, a, None), Event(Create, b, None);
    var t2, s2 := DeletedAndCreated(cfg, a, b, removed, created, slip);
    var s3 := s2.(pending := {}, batch := {d, c});
    var s4 := s3.(batch := {c}, queue := [d]);
    s := s4.(batch := {}, queue := [d, c]);
    assert {d, c} - {d} == {c} && {c} - {c} == {};
    var s0 := Settled(cfg.env, map[a := removed]);
    hide Reaches, SafeFor, Settled;
    AlwaysSafe(cfg, s2, Collect, b, false);
    TrueDelivery(cfg, s3, d, b);
    TrueDelivery(cfg, s4, c, b);
    Then(cfg, s0, t2, s2, Collect, s3, slip, b);
    Then(cfg, s0, t2 + [Collect], s3, Deliver(d), s4, slip, b);
    Then(cfg, s0, t2 + [Collect] + [Deliver(d)], s4, Deliver(c), s, slip, b);
    steps := t2 + [Collect] + [Deliver(d)] + [Deliver(c)];
  }

  lemma DeletedAndCreated(cfg: Config, a: string, b: string, removed: DiskFile, created: DiskFile, slip: int)
    returns (steps: seq<Step>, s: State)
    requires a != b && cfg.watched(a) && cfg.watched(b) && slip > 1
    ensures s == Settled(cfg.env, map[a := removed]).(
                   disk := map[b := created], pending := {Event(Delete, a, None), Event(Create, b, None)})
    ensures |steps| == 2 && Reaches(cfg, Settled(cfg.env, map[a := removed]), steps, s, slip, b)
  {
    var s0 := Settled(cfg.env, map[a := removed]);
    var d, c := Event(Delete, a, None), Event(Create, b, None);
    var s1 := s0.(disk := map[], pending := {d});
    s := s1.(disk := map[b := created], pending := {d, c});
    assert s0.disk - {a} == map[] && {d} + {c} == {d, c};
    Here(cfg, s0, slip, b);
    hide Reaches, SafeFor;
    AlwaysSafe(cfg, s0, Remove(a, true), b, false);
    AlwaysSafe(cfg, s1, Write(b, created, true), b, false);
    Then(cfg, s0, [], s0, Remove(a, true), s1, slip, b);
    Then(cfg, s0, [] + [Remove(a, true)], s1, Write(b, created, true), s, slip, b);
    steps := [] + [Remove(a, true)] + [Write(b, created, true)];
  }

  /** With room in the queue it is safe to deliver what is true, or about another path. */
  lemma TrueDelivery(cfg: Config, s: State, e: Event, p: string)
    requires e in s.batch && !s.rescan && |s.queue| < cfg.capacity
    requires Says(e, p).Some? ==> Says(e, p).value == (p in s.disk)
    ensures SafeFor(cfg, s, Deliver(e), p, false)
  {
    hide LastSays, Says, Known;
  }

  lemma SaysLast(es: seq<Event>, e: Event, p: string)
    requires Says(e, p).Some?
    ensures LastSays(es + [e], p) == Says(e, p) && LastSays([e], p) == Says(e, p)
  {
    LastSaysSnoc(es, e, p);
  }

  /** A path that comes back after a walk missed it and before the walk reports it is dropped from the index. */
  lemma LateReturnLosesUpdate(cfg: Config, p: string, file: DiskFile) returns (steps: seq<Step>, end: State)
    requires cfg.capacity >= 3 && cfg.env.shouldIndex(p, file.content) && cfg.watched(p) && cfg.walkable(p)
    ensures Init(cfg, Settled(cfg.env, map[p := file]), p)
    ensures LosesUpdate(cfg, Settled(cfg.env, map[p := file]), steps, 6, end, p) && steps[6] == ReportGone(BySweep, p)
  {
    SettledIsInit(cfg, map[p := file], p);
    var d := Event(Delete, p, None);
    var t6, s6 := BackBehindTheWalk(cfg, p, file, 6);
    LastOnly(s6.queue + [d], p, d);
    hide Reaches, Dispatched, Coalesced, Settled;
    steps, end := FalselyReported(cfg, Settled(cfg.env, map[p := file]), t6, s6, p, file.mtime);
  }

  /** A walk that has not seen a recorded path which is on disk reports it gone, and the path is dropped. */
  lemma FalselyReported(cfg: Config, s0: State, t: seq<Step>, s: State, p: string, mtime: int)
    returns (steps: seq<Step>, end: State)
    requires Reaches(cfg, s0, t, s, |t|, p) && s.sweep == Some(Walk(map[p := mtime], {}, {}, None, {}))
    requires p in s.disk && Indexable(cfg.env, s.disk, p)
    requires s.pending == {} && s.batch == {} && !s.rescan && s.worker.Idle? && |s.queue| < cfg.capacity
    requires Dispatched(Coalesced(s.queue + [Event(Delete, p, None)])) == [Event(Delete, p, None)]
    ensures LosesUpdate(cfg, s0, steps, |t|, end, p) && steps[|t|] == ReportGone(BySweep, p)
  {
    var d := Event(Delete, p, None);
    var t1 := t + [ReportGone(BySweep, p)] + [WalkFinish(BySweep)];
    var s2 := s.(sweep := None, queue := s.queue + [d]);
    hide Reaches, Dispatched, Coalesced, LastSays, Possible, Next, SafeFor;
    ReportSlips(cfg, s0, t, s, p, mtime);
    OneApplied(cfg, s0, t1, s2, d, |t|, p);
    steps := t1 + [DrainBegin(true)] + [ApplyNext] + [ApplyNext];
    end := s2.(queue := [], index := ApplyEvent(cfg.env, s.disk, s.index, d));
  }

  lemma ReportSlips(cfg: Config, s0: State, t: seq<Step>, s: State, p: string, mtime: int)
    requires Reaches(cfg, s0, t, s, |t|, p) && s.sweep == Some(Walk(map[p := mtime], {}, {}, None, {}))
    requires p in s.disk && s.pending == {} && s.batch == {} && !s.rescan && s.worker.Idle? && |s.queue| < cfg.capacity
    ensures Reaches(cfg, s0, t + [ReportGone(BySweep, p)] + [WalkFinish(BySweep)],
                    s.(sweep := None, queue := s.queue + [Event(Delete, p, None)]), |t|, p)
  {
    var d, w := Event(Delete, p, None), s.sweep.value;
    var s1 := s.(sweep := Some(w.(reported := {p})), queue := s.queue + [d]);
    assert w.reported + {p} == {p};
    NothingSaysNothing(p);
    assert !SafeFor(cfg, s, ReportGone(BySweep, p), p, false);
    hide Reaches, LastSays, SafeFor, InSync;
    Then(cfg, s0, t, s, ReportGone(BySweep, p), s1, |t|, p);
    AlwaysSafe(cfg, s1, WalkFinish(BySweep), p, false);
    Then(cfg, s0, t + [ReportGone(BySweep, p)], s1, WalkFinish(BySweep), s1.(sweep := None), |t|, p);
  }

  /** The sweep starts while the path is away; it is back, and both notices are queued, before the report. */
  lemma BackBehindTheWalk(cfg: Config, p: string, file: DiskFile, slip: int) returns (steps: seq<Step>, s: State)
    requires cfg.capacity >= 3 && cfg.watched(p) && slip > 5
    ensures s == Settled(cfg.env, map[p := file]).(
                   queue := [Event(Delete, p, None), Event(Create, p, None)],
                   sweep := Some(Walk(map[p := file.mtime], {}, {}, None, {})))
    ensures |steps| == 6 && Reaches(cfg, Settled(cfg.env, map[p := file]), steps, s, slip, p)
  {
    var s0 := Settled(cfg.env, map[p := file]);
    var d, c := Event(Delete, p, None), Event(Create, p, None);
    var w := Walk(map[p := file.mtime], {}, {}, None, {});
    var s1 := s0.(disk := map[], pending := {d});
    var s2 := s1.(sweep := Some(w));
    var s3 := s2.(disk := map[p := file], pending := {d, c});
    assert s0.disk - {p} == map[] && BeginWalk(cfg, s1) == w;
    assert {d} + {c} == {d, c};
    Here(cfg, s0, slip, p);
    hide Reaches, BeginWalk;
    Then(cfg, s0, [], s0, Remove(p, true), s1, slip, p);
    Then(cfg, s0, [] + [Remove(p, true)], s1, WalkStart(BySweep), s2, slip, p);
    var t2 := [] + [Remove(p, true)] + [WalkStart(BySweep)];
    Then(cfg, s0, t2, s2, Write(p, file, true), s3, slip, p);
    s := BothQueued(cfg, s0, t2 + [Write(p, file, true)], s3, d, c, slip, p);
    steps := t2 + [Write(p, file, true)] + [Collect] + [Deliver(d)] + [Deliver(c)];
  }

  /** Two notices about a path, handed over together and queued in this order: safe exactly when the second is true. */
  lemma BothQueued(cfg: Config, s0: State, steps: seq<Step>, s: State, first: Event, second: Event, slip: int, p: string)
    returns (s': State)
    requires Reaches(cfg, s0, steps, s, slip, p) && s.pending == {first, second} && s.batch == {} && s.queue == []
    requires Raw(first) && Raw(second) && first.path == p && second.path == p && first.kind != second.kind
    requires !s.rescan && cfg.capacity >= 2 && slip != |steps| && slip != |steps| + 1
    requires slip == |steps| + 2 <==> second.kind.Delete? == (p in s.disk)
    ensures s' == s.(pending := {}, queue := [first, second])
    ensures Reaches(cfg, s0, steps + [Collect] + [Deliver(first)] + [Deliver(second)], s', slip, p)
  {
    var s1 := s.(pending := {}, batch := {first, second});
    var s2 := s1.(batch := {second}, queue := [first]);
    s' := s2.(batch := {}, queue := [first, second]);
    assert {first, second} - {first} == {second} && {second} - {second} == {};
    assert Outstanding(s2, p) && Says(second, p) == Some(!second.kind.Delete?);
    hide Reaches, LastSays, Says;
    Then(cfg, s0, steps, s, Collect, s1, slip, p);
    Then(cfg, s0, steps + [Collect], s1, Deliver(first), s2, slip, p);
    Then(cfg, s0, steps + [Collect] + [Deliver(first)], s2, Deliver(second), s', slip, p);
  }

  // ---------------------------------------------------------------- batches without an order

  /** A save by way of removing and creating the file, handed over in one batch and queued in the other order: the file
      is there and not indexed. */
  lemma SaveOutOfOrderLosesUpdate(cfg: Config, p: string, before: DiskFile, after: DiskFile)
    returns (steps: seq<Step>, end: State)
    requires cfg.capacity >= 2 && cfg.watched(p) && cfg.walkable(p) && cfg.env.shouldIndex(p, after.content)
    ensures Init(cfg, Settled(cfg.env, map[p := before]), p)
    ensures LosesUpdate(cfg, Settled(cfg.env, map[p := before]), steps, 4, end, p)
    ensures steps[..5] == [Remove(p, true), Write(p, after, true), Collect,
                           Deliver(Event(Create, p, None)), Deliver(Event(Delete, p, None))]
  {
    SettledIsInit(cfg, map[p := before], p);
    var s0 := Settled(cfg.env, map[p := before]);
    var d, c := Event(Delete, p, None), Event(Create, p, None);
    var s1 := s0.(disk := map[], pending := {d});
    var s2 := s1.(disk := map[p := after], pending := {c, d});
    assert s0.disk - {p} == map[] && {d} + {c} == {c, d};
    Here(cfg, s0, 4, p);
    hide Reaches, Dispatched, Coalesced;
    Then(cfg, s0, [], s0, Remove(p, true), s1, 4, p);
    Then(cfg, s0, [] + [Remove(p, true)], s1, Write(p, after, true), s2, 4, p);
    steps, end := QueuedAndApplied(cfg, s0, [] + [Remove(p, true)] + [Write(p, after, true)], s2, c, d, p);
  }

  /** A file written and then removed, queued in the other order: the file is gone and stays indexed. */
  lemma RemovalOutOfOrderLosesUpdate(cfg: Config, p: string, before: DiskFile, after: DiskFile)
    returns (steps: seq<Step>, end: State)
    requires cfg.capacity >= 2 && cfg.watched(p) && cfg.walkable(p)
    ensures Init(cfg, Settled(cfg.env, map[p := before]), p)
    ensures LosesUpdate(cfg, Settled(cfg.env, map[p := before]), steps, 4, end, p)
    ensures steps[..5] == [Write(p, after, true), Remove(p, true), Collect,
                           Deliver(Event(Delete, p, None)), Deliver(Event(Modify, p, None))]
  {
    SettledIsInit(cfg, map[p := before], p);
    var s0 := Settled(cfg.env, map[p := before]);
    var d, m := Event(Delete, p, None), Event(Modify, p, None);
    var s1 := s0.(disk := map[p := after], pending := {m});
    var s2 := s1.(disk := map[], pending := {d, m});
    assert s1.disk - {p} == map[] && {m} + {d} == {d, m};
    Here(cfg, s0, 4, p);
    hide Reaches, Dispatched, Coalesced;
    Then(cfg, s0, [], s0, Write(p, after, true), s1, 4, p);
    Then(cfg, s0, [] + [Write(p, after, true)], s1, Remove(p, true), s2, 4, p);
    steps, end := QueuedAndApplied(cfg, s0, [] + [Write(p, after, true)] + [Remove(p, true)], s2, d, m, p);
  }

  /** Both notices queued, the false one last, and the batch applied. */
  lemma QueuedAndApplied(cfg: Config, s0: State, t: seq<Step>, s: State, first: Event, second: Event, p: string)
    returns (steps: seq<Step>, end: State)
    requires |t| == 2 && Reaches(cfg, s0, t, s, 4, p) && cfg.capacity >= 2 && p in s.index
    requires s == s.(pending := {first, second}, batch := {}, queue := [], rescan := false, worker := Idle)
    requires first in {Event(Create, p, None), Event(Delete, p, None)} && first != second
    requires if p in s.disk then second == Event(Delete, p, None) && Indexable(cfg.env, s.disk, p)
             else second == Event(Modify, p, None)
    ensures LosesUpdate(cfg, s0, steps, 4, end, p) && steps[..5] == t + [Collect, Deliver(first), Deliver(second)]
  {
    hide Reaches, Dispatched, Coalesced;
    var s1 := BothQueued(cfg, s0, t, s, first, second, 4, p);
    LastOnly(s1.queue, p, second);
    var t5 := t + [Collect] + [Deliver(first)] + [Deliver(second)];
    OneApplied(cfg, s0, t5, s1, second, 4, p);
    end := s1.(queue := [], index := ApplyEvent(cfg.env, s1.disk, s1.index, second));
    steps := t5 + [DrainBegin(true)] + [ApplyNext] + [ApplyNext];
    assert steps[..5] == t5 == t + [Collect, Deliver(first), Deliver(second)];
  }

  /** And so for every batch with two words about a path and nothing newer gathered: queue the true notices first, and a
      false one comes last. With one word, every order is safe (`OrderlyRuns.DeliverIsSafe`). */
  lemma TwoWordsSlip(cfg: Config, s: State, p: string, bySweep: bool) returns (steps: seq<Step>, t: State, e: Event)
    requires !OneWord(s.batch, p) && !Heard(s.pending, p) && !s.rescan && |s.queue| + 3 <= cfg.capacity
    ensures Exec(cfg, s, steps) == Some(t) && forall step :: step in steps ==> step.Deliver?
    ensures e in t.batch && !SafeFor(cfg, t, Deliver(e), p, bySweep)
  {
    var c, m, d := Event(Create, p, None), Event(Modify, p, None), Event(Delete, p, None);
    var first := if p !in s.disk then d else if c in s.batch then c else m;
    steps, t := DeliverOne(cfg, s, [], s, first);
    if c in s.batch && m in s.batch {
      var second := if p in s.disk then m else c;
      steps, t := DeliverOne(cfg, s, steps, t, second);
    }
    e := if p in s.disk then d else if m in s.batch then m else c;
    assert t.batch - {e} == s.batch - {c, m, d};
  }

  lemma DeliverOne(cfg: Config, s0: State, steps: seq<Step>, s: State, e: Event) returns (longer: seq<Step>, s': State)
    requires Exec(cfg, s0, steps) == Some(s) && e in s.batch && !s.rescan && |s.queue| < cfg.capacity
    ensures longer == steps + [Deliver(e)] && Exec(cfg, s0, longer) == Some(s')
    ensures s' == s.(batch := s.batch - {e}, queue := s.queue + [e])
  {
    ExecSnoc(cfg, s0, steps, Deliver(e));
    longer, s' := steps + [Deliver(e)], Next(cfg, s, Deliver(e));
  }

  // ---------------------------------------------------------------- between reading an mtime and queueing it

  /** A walk finds a file newer than recorded, as it does every touched file; before it queues that, the file is removed
      and its notice queued. The walk has the last word, and the file stays indexed. */
  lemma LateReportLosesUpdate(cfg: Config, p: string, file: DiskFile, recorded: int) returns (steps: seq<Step>, end: State)
    requires cfg.capacity >= 2 && cfg.watched(p) && cfg.walkable(p) && recorded < file.mtime
    ensures Init(cfg, Touched(cfg.env, p, file, recorded), p)
    ensures LosesUpdate(cfg, Touched(cfg.env, p, file, recorded), steps, 5, end, p) && steps[5] == Report(BySweep)
  {
    hide Reaches, Dispatched, Coalesced, Possible, Next, SafeFor, Init, ApplyEvent;
    var s0, d, m := Touched(cfg.env, p, file, recorded), Event(Delete, p, None), Event(Modify, p, None);
    TouchedIsInit(cfg, p, file, recorded);
    var t5, s5 := RemovedBehindTheWalk(cfg, p, file, recorded);
    var s7 := ReportsLate(cfg, s0, t5, s5, p);
    var t7 := t5 + [Report(BySweep)] + [WalkFinish(BySweep)];
    LastOnly([d, m], p, m);
    OneApplied(cfg, s0, t7, s7, m, 5, p);
    steps := t7 + [DrainBegin(true)] + [ApplyNext] + [ApplyNext];
    end := s7.(queue := [], index := ApplyEvent(cfg.env, s7.disk, s7.index, m));
    GoneIsNotUpdated(cfg.env, s7.index, m);
  }

  lemma TouchedIsInit(cfg: Config, p: string, file: DiskFile, recorded: int)
    requires cfg.walkable(p)
    ensures Init(cfg, Touched(cfg.env, p, file, recorded), p)
  {
  }

  lemma GoneIsNotUpdated(env: Env, idx: Paths, e: Event)
    requires e.kind.Modify?
    ensures ApplyEvent(env, map[], idx, e) == idx
  {
  }

  /** The sweep has read the mtime of a touched file; before it queues anything, the removal of the file is queued. */
  lemma RemovedBehindTheWalk(cfg: Config, p: string, file: DiskFile, recorded: int) returns (steps: seq<Step>, s: State)
    requires cfg.capacity >= 2 && cfg.watched(p) && cfg.walkable(p) && recorded < file.mtime
    ensures s == Touched(cfg.env, p, file, recorded).(
                   disk := map[], queue := [Event(Delete, p, None)],
                   sweep := Some(Walk(map[p := recorded], {}, {p}, Some(p), {})))
    ensures |steps| == 5 && Reaches(cfg, Touched(cfg.env, p, file, recorded), steps, s, 5, p)
  {
    var s0, d := Touched(cfg.env, p, file, recorded), Event(Delete, p, None);
    var t2, s2 := FoundNewer(cfg, p, file, recorded, 5);
    assert s2.disk - {p} == map[] && s2.queue + [d] == [d];
    hide Reaches;
    ChangeQueued(cfg, s0, t2, s2, Remove(p, true), d, 5, p);
    steps, s := t2 + Noted(Remove(p, true), d), s2.(disk := map[], queue := [d]);
  }

  /** The walk queues what it found of a path whose removal is queued already, and ends. */
  lemma ReportsLate(cfg: Config, s0: State, t: seq<Step>, s: State, p: string) returns (s': State)
    requires Reaches(cfg, s0, t, s, |t|, p) && s.pending == {} && s.batch == {} && !s.rescan && s.worker.Idle?
    requires s.queue == [Event(Delete, p, None)] && cfg.capacity >= 2 && p !in s.disk && s.sweep.Some?
    requires var w := s.sweep.value;
             w.found == Some(p) && p in w.recorded && w.todo == {} && w.recorded.Keys <= w.seen + w.reported
    ensures s' == s.(sweep := None, queue := [Event(Delete, p, None), Event(Modify, p, None)])
    ensures Reaches(cfg, s0, t + [Report(BySweep)] + [WalkFinish(BySweep)], s', |t|, p)
  {
    var m := Event(Modify, p, None);
    var s1 := s.(sweep := Some(s.sweep.value.(found := None)), queue := s.queue + [m]);
    s' := s1.(sweep := None);
    assert Next(cfg, s, Report(BySweep)) == s1;
    assert !SafeFor(cfg, s, Report(BySweep), p, false);
    hide Reaches, SafeFor;
    Then(cfg, s0, t, s, Report(BySweep), s1, |t|, p);
    AlwaysSafe(cfg, s1, WalkFinish(BySweep), p, false);
    Then(cfg, s0, t + [Report(BySweep)], s1, WalkFinish(BySweep), s', |t|, p);
  }

  /** An indexed file touched since. */
  function Touched(env: Env, p: string, file: DiskFile, recorded: int): State {
    Settled(env, map[p := file]).(index := map[p := Entry(env.fileHash(file.content), recorded)])
  }

  lemma FoundNewer(cfg: Config, p: string, file: DiskFile, recorded: int, slip: int) returns (steps: seq<Step>, s: State)
    requires cfg.walkable(p) && recorded < file.mtime && slip > 1
    ensures s == Touched(cfg.env, p, file, recorded).(sweep := Some(Walk(map[p := recorded], {}, {p}, Some(p), {})))
    ensures |steps| == 2 && Reaches(cfg, Touched(cfg.env, p, file, recorded), steps, s, slip, p)
  {
    var s0 := Touched(cfg.env, p, file, recorded);
    var w := Walk(map[p := recorded], {p}, {}, None, {});
    var s1 := s0.(sweep := Some(w));
    s := s1.(sweep := Some(w.(todo := {}, seen := {p}, found := Some(p))));
    assert BeginWalk(cfg, s0) == w;
    assert w.todo - {p} == {} && w.seen + {p} == {p};
    Here(cfg, s0, slip, p);
    hide Reaches, BeginWalk;
    Then(cfg, s0, [], s0, WalkStart(BySweep), s1, slip, p);
    Then(cfg, s0, [] + [WalkStart(BySweep)], s1, Visit(BySweep, p), s, slip, p);
    steps := [] + [WalkStart(BySweep)] + [Visit(BySweep, p)];
  }

  // ---------------------------------------------------------------- overflowing a queue of any size

  function Copies(e: Event, n: nat): (r: seq<Event>)
    ensures |r| == n && forall i :: 0 <= i < n ==> r[i] == e
  {
    if n == 0 then [] else Copies(e, n - 1) + [e]
  }

  /** The same save again and again, each handed over and queued. */
  function Saves(p: string, after: DiskFile, n: nat): (r: seq<Step>)
    ensures |r| == 3 * n
  {
    if n == 0 then [] else Saves(p, after, n - 1) + Noted(Write(p, after, true), Event(Modify, p, None))
  }

  lemma {:induction false} SavedTimes(cfg: Config, p: string, before: DiskFile, after: DiskFile, n: nat, slip: int)
    requires cfg.watched(p) && n <= cfg.capacity && (slip < 0 || slip >= 3 * n)
    ensures Reaches(cfg, Settled(cfg.env, map[p := before]), Saves(p, after, n),
                    Settled(cfg.env, map[p := before]).(disk := map[p := if n == 0 then before else after],
                                                        queue := Copies(Event(Modify, p, None), n)), slip, p)
    decreases n
  {
    var s0 := Settled(cfg.env, map[p := before]);
    if n == 0 {
      Here(cfg, s0, slip, p);
    } else {
      SavedTimes(cfg, p, before, after, n - 1, slip);
      var m := Event(Modify, p, None);
      var s1 := s0.(disk := map[p := if n == 1 then before else after], queue := Copies(m, n - 1));
      assert s1.disk[p := after] == map[p := after];
      hide Reaches;
      ChangeQueued(cfg, s0, Saves(p, after, n - 1), s1, Write(p, after, true), m, slip, p);
    }
  }

  /** One save more than the queue holds. */
  function Overflow(cfg: Config, p: string, after: DiskFile): (r: seq<Step>)
    ensures |r| == 3 * cfg.capacity + 3
  {
    Saves(p, after, cfg.capacity) + [Write(p, after, true)] + [Collect] + [Deliver(Event(Modify, p, None))]
  }

  /** The walk that stands in for the dropped events has only the mtime to go by. */
  lemma TellsBy(cfg: Config, p: string, before: DiskFile, after: DiskFile, queue: seq<Event>)
    requires cfg.env.shouldIndex(p, after.content) && cfg.env.fileHash(after.content) != cfg.env.fileHash(before.content)
    ensures Known(cfg, Settled(cfg.env, map[p := before]).(disk := map[p := after], queue := queue, rescan := true), p, false)
            <==> before.mtime < after.mtime
  {
  }

  /** The last delivery overflows the queue, which is safe exactly when the save advanced the recorded mtime. */
  lemma Overflowed(cfg: Config, p: string, before: DiskFile, after: DiskFile, slip: int)
    requires cfg.watched(p) && cfg.env.shouldIndex(p, after.content)
    requires cfg.env.fileHash(after.content) != cfg.env.fileHash(before.content)
    requires slip < 0 || slip > 3 * cfg.capacity + 1
    requires slip == 3 * cfg.capacity + 2 <==> after.mtime <= before.mtime
    ensures Reaches(cfg, Settled(cfg.env, map[p := before]), Overflow(cfg, p, after),
                    Settled(cfg.env, map[p := before]).(disk := map[p := after], rescan := true), slip, p)
  {
    var s0 := Settled(cfg.env, map[p := before]);
    var m, c := Event(Modify, p, None), cfg.capacity;
    SavedTimes(cfg, p, before, after, c, slip);
    var s1 := s0.(disk := map[p := if c == 0 then before else after], queue := Copies(m, c));
    var s2 := s1.(disk := map[p := after], pending := {m});
    var s3 := s2.(pending := {}, batch := {m});
    var s4 := s0.(disk := map[p := after], rescan := true);
    assert s1.disk[p := after] == map[p := after] && {m} - {m} == {};
    NothingSaysNothing(p);
    SaysLast(s3.queue, m, p);
    hide Reaches, LastSays, Known;
    TellsBy(cfg, p, before, after, Copies(m, c));
    var t := Saves(p, after, c);
    Then(cfg, s0, t, s1, Write(p, after, true), s2, slip, p);
    Then(cfg, s0, t + [Write(p, after, true)], s2, Collect, s3, slip, p);
    LastDelivery(cfg, s3, m, p);
    Then(cfg, s0, t + [Write(p, after, true)] + [Collect], s3, Deliver(m), s4, slip, p);
  }

  /** When the last notice about a path overflows the queue, it has to be known without. */
  lemma LastDelivery(cfg: Config, s: State, m: Event, p: string)
    requires s.batch == {m} && s.pending == {} && Drops(cfg, s) && Says(m, p).Some? && s.worker.Idle?
    ensures SafeFor(cfg, s, Deliver(m), p, false) <==> Known(cfg, s.(batch := {}, rescan := true), p, false)
  {
    assert {m} - {m} == {};
    NothingSaysNothing(p);
    LastSaysSnoc(s.queue, m, p);
    hide LastSays, Known;
  }

  /** A change that does not advance the integer mtime is invisible to the walk that replaces lost events. Without an
      overflow such a change is safe. */
  lemma SameMtimeLosesUpdate(cfg: Config, p: string, before: DiskFile, after: DiskFile) returns (steps: seq<Step>, end: State)
    requires cfg.watched(p) && cfg.walkable(p) && cfg.env.shouldIndex(p, after.content)
    requires after.mtime <= before.mtime && cfg.env.fileHash(after.content) != cfg.env.fileHash(before.content)
    ensures Init(cfg, Settled(cfg.env, map[p := before]), p)
    ensures LosesUpdate(cfg, Settled(cfg.env, map[p := before]), steps, 3 * cfg.capacity + 2, end, p)
    ensures steps[3 * cfg.capacity + 2].Deliver? && Lost(cfg, end, p)
  {
    SettledIsInit(cfg, map[p := before], p);
    var s0, slip := Settled(cfg.env, map[p := before]), 3 * cfg.capacity + 2;
    var t := Overflow(cfg, p, after);
    Overflowed(cfg, p, before, after, slip);
    var s4 := s0.(disk := map[p := after], rescan := true);
    var w := Walk(map[p := before.mtime], {p}, {}, None, {});
    assert BeginWalk(cfg, s4) == w;
    end := s4.(rescan := false);
    hide Reaches, Settled;
    RescanFindsNothing(cfg, s0, t, s4, w, slip, p);
    steps := t + [DrainBegin(true)] + [WalkStart(ByWorker)] + [Visit(ByWorker, p)] + [WalkFinish(ByWorker)];
    StaysLost(cfg, end, p);
  }

  lemma StaysLost(cfg: Config, s: State, p: string)
    requires Quiescent(s) && s.sweep.None? && !InSync(cfg, s, p) && !WalkTells(s, p) && cfg.walkable(p)
    ensures Lost(cfg, s, p)
  {
    NothingSaysNothing(p);
  }

  /** A rescan of a project with one file, which is no newer than recorded. */
  lemma RescanFindsNothing(cfg: Config, s0: State, steps: seq<Step>, s: State, w: Walk, slip: int, p: string)
    requires Reaches(cfg, s0, steps, s, slip, p) && slip < |steps| && s.rescan && s.worker.Idle? && s.queue == []
    requires BeginWalk(cfg, s) == w && w.todo == {p} == w.recorded.Keys && p in s.disk && !Drifted(w, s.disk, p)
    ensures Reaches(cfg, s0, steps + [DrainBegin(true)] + [WalkStart(ByWorker)] + [Visit(ByWorker, p)] + [WalkFinish(ByWorker)],
                    s.(rescan := false), slip, p)
  {
    var s1 := s.(rescan := false, worker := Ticket);
    var s2 := s1.(worker := Walking(w));
    var s3 := s2.(worker := Walking(w.(todo := {}, seen := {p})));
    assert BeginWalk(cfg, s1) == w && w.todo - {p} == {} && w.seen + {p} == {p};
    hide Reaches, SafeFor, BeginWalk;
    AlwaysSafe(cfg, s, DrainBegin(true), p, false);
    AlwaysSafe(cfg, s1, WalkStart(ByWorker), p, false);
    AlwaysSafe(cfg, s2, Visit(ByWorker, p), p, false);
    AlwaysSafe(cfg, s3, WalkFinish(ByWorker), p, false);
    var t2 := steps + [DrainBegin(true)] + [WalkStart(ByWorker)];
    Then(cfg, s0, steps, s, DrainBegin(true), s1, slip, p);
    Then(cfg, s0, steps + [DrainBegin(true)], s1, WalkStart(ByWorker), s2, slip, p);
    Then(cfg, s0, t2, s2, Visit(ByWorker, p), s3, slip, p);
    Then(cfg, s0, t2 + [Visit(ByWorker, p)], s3, WalkFinish(ByWorker), s.(rescan := false), slip, p);
  }

  /** Re-adding a project clears a flagged rescan, and with it the events the flag stood for. */
  lemma ReAddLosesUpdate(cfg: Config, p: string, before: DiskFile, after: DiskFile) returns (steps: seq<Step>, end: State)
    requires cfg.watched(p) && cfg.walkable(p) && cfg.env.shouldIndex(p, after.content)
    requires before.mtime < after.mtime && cfg.env.fileHash(after.content) != cfg.env.fileHash(before.content)
    ensures Init(cfg, Settled(cfg.env, map[p := before]), p)
    ensures LosesUpdate(cfg, Settled(cfg.env, map[p := before]), steps, 3 * cfg.capacity + 3, end, p)
    ensures steps[3 * cfg.capacity + 3].ReAdd?
  {
    SettledIsInit(cfg, map[p := before], p);
    var s0, slip := Settled(cfg.env, map[p := before]), 3 * cfg.capacity + 3;
    Overflowed(cfg, p, before, after, slip);
    var s4 := s0.(disk := map[p := after], rescan := true);
    end := s4.(rescan := false);
    NothingSaysNothing(p);
    hide Reaches, LastSays;
    Then(cfg, s0, Overflow(cfg, p, after), s4, ReAdd, end, slip, p);
    steps := Overflow(cfg, p, after) + [ReAdd];
  }

  /** A rescan that finds the root missing is over without a walk, and the files that went with the root stay indexed. */
  lemma MissingRootLosesUpdate(cfg: Config, p: string, before: DiskFile, after: DiskFile) returns (steps: seq<Step>, end: State)
    requires cfg.watched(p) && cfg.walkable(p) && cfg.env.shouldIndex(p, after.content)
    requires before.mtime < after.mtime && cfg.env.fileHash(after.content) != cfg.env.fileHash(before.content)
    ensures Init(cfg, Settled(cfg.env, map[p := before]), p)
    ensures LosesUpdate(cfg, Settled(cfg.env, map[p := before]), steps, 3 * cfg.capacity + 7, end, p)
    ensures steps[3 * cfg.capacity + 7].WalkSkip?
  {
    SettledIsInit(cfg, map[p := before], p);
    var s0, slip, t := Settled(cfg.env, map[p := before]), 3 * cfg.capacity + 7, Overflow(cfg, p, after);
    Overflowed(cfg, p, before, after, slip);
    var s4 := s0.(disk := map[p := after], rescan := true);
    var d := Event(Delete, p, None);
    assert s4.disk - {p} == map[];
    hide Reaches;
    RemovedUnderRescan(cfg, s0, t, s4, slip, p);
    var s7 := s4.(disk := map[]);
    var s8 := s7.(rescan := false, worker := Ticket);
    end := s8.(worker := Idle);
    var t7 := t + Noted(Remove(p, true), d);
    NothingSaysNothing(p);
    hide LastSays;
    Then(cfg, s0, t7, s7, DrainBegin(false), s8, slip, p);
    Then(cfg, s0, t7 + [DrainBegin(false)], s8, WalkSkip, end, slip, p);
    steps := t7 + [DrainBegin(false)] + [WalkSkip];
  }

  /** Under a flagged rescan the notice of a removal is dropped: a walk would report the path gone. */
  lemma RemovedUnderRescan(cfg: Config, s0: State, steps: seq<Step>, s: State, slip: int, p: string)
    requires Reaches(cfg, s0, steps, s, slip, p) && (slip < |steps| || slip > |steps| + 2)
    requires cfg.watched(p) && p in s.disk && s.rescan && s.worker.Idle? && s.pending == {} && s.batch == {} && s.queue == []
    ensures Reaches(cfg, s0, steps + Noted(Remove(p, true), Event(Delete, p, None)), s.(disk := s.disk - {p}), slip, p)
  {
    var d := Event(Delete, p, None);
    var s1 := s.(disk := s.disk - {p}, pending := {d});
    var s2 := s1.(pending := {}, batch := {d});
    var s3 := s2.(batch := {});
    assert {d} - {d} == {} && s.pending + {d} == {d};
    var t1 := steps + [Remove(p, true)];
    assert steps + Noted(Remove(p, true), d) == t1 + [Collect] + [Deliver(d)];
    hide Reaches;
    Then(cfg, s0, steps, s, Remove(p, true), s1, slip, p);
    Then(cfg, s0, t1, s1, Collect, s2, slip, p);
    LastDelivery(cfg, s2, d, p);
    Then(cfg, s0, t1 + [Collect], s2, Deliver(d), s3, slip, p);
  }

  // ---------------------------------------------------------------- paths that are not followed

  /** A path the watch filter hides, or a change made while `awatch` is down: a single save is lost as soon as it is made,
      with nothing on its way. */
  lemma UnnoticedLosesUpdate(cfg: Config, p: string, file: DiskFile)
    requires cfg.env.shouldIndex(p, file.content)
    ensures Init(cfg, Settled(cfg.env, map[]), p)
    ensures var end := Exec(cfg, Settled(cfg.env, map[]), [Write(p, file, false)]);
            end.Some? && Quiescent(end.value) && !InSync(cfg, end.value, p)
  {
    SettledIsInit(cfg, map[], p);
    var s0 := Settled(cfg.env, map[]);
    assert [Write(p, file, false)][1..] == [];
    SilentChangeExact(cfg, s0, Write(p, file, false), p);
  }

  /** A path the walk does not descend to, though the filter chain accepts it: its save is indexed, and the next walk,
      which does not see the file, drops it. */
  lemma UnwalkedLosesUpdate(cfg: Config, p: string, file: DiskFile) returns (steps: seq<Step>, end: State)
    requires cfg.capacity >= 1 && cfg.env.shouldIndex(p, file.content) && cfg.watched(p) && !cfg.walkable(p)
    ensures Init(cfg, Settled(cfg.env, map[]), p)
    ensures LosesUpdate(cfg, Settled(cfg.env, map[]), steps, 7, end, p) && steps[7] == ReportGone(BySweep, p)
  {
    SettledIsInit(cfg, map[], p);
    var s0, d := Settled(cfg.env, map[]), Event(Delete, p, None);
    var t, s := UnseenBySweep(cfg, p, file);
    hide Reaches, Dispatched, Coalesced, Settled, SafeFor;
    LastOnly([d], p, d);
    assert s.queue + [d] == [d];
    steps, end := FalselyReported(cfg, s0, t, s, p, file.mtime);
  }

  /** The save is indexed, and a sweep that does not come to the file begins. */
  lemma UnseenBySweep(cfg: Config, p: string, file: DiskFile) returns (steps: seq<Step>, s: State)
    requires cfg.capacity >= 1 && cfg.env.shouldIndex(p, file.content) && cfg.watched(p) && !cfg.walkable(p)
    ensures |steps| == 7 && Reaches(cfg, Settled(cfg.env, map[]), steps, s, 7, p)
    ensures s == State(map[p := file], map[p := Entry(cfg.env.fileHash(file.content), file.mtime)], {}, {}, [], false, Idle,
                       Some(Walk(map[p := file.mtime], {}, {}, None, {})))
  {
    var t, s6 := SavedAndIndexed(cfg, p, file, 7);
    s := s6.(sweep := Some(Walk(map[p := file.mtime], {}, {}, None, {})));
    assert BeginWalk(cfg, s6) == s.sweep.value;
    hide Reaches, Settled, BeginWalk, SafeFor;
    AlwaysSafe(cfg, s6, WalkStart(BySweep), p, false);
    Then(cfg, Settled(cfg.env, map[]), t, s6, WalkStart(BySweep), s, 7, p);
    steps := t + [WalkStart(BySweep)];
  }

  lemma SavedAndIndexed(cfg: Config, p: string, file: DiskFile, slip: int) returns (steps: seq<Step>, s: State)
    requires cfg.capacity >= 1 && cfg.env.shouldIndex(p, file.content) && cfg.watched(p) && slip > 5
    ensures |steps| == 6 && Reaches(cfg, Settled(cfg.env, map[]), steps, s, slip, p)
    ensures s == State(map[p := file], map[p := Entry(cfg.env.fileHash(file.content), file.mtime)], {}, {}, [], false, Idle, None)
  {
    hide Reaches, Dispatched, Coalesced, ApplyEvent, SafeFor, Next, Possible, SafeToRename;
    var change, e := Write(p, file, true), Event(Create, p, None);
    var s1 := WrittenQueued(cfg, p, file, slip);
    s := s1.(queue := [], index := map[p := Entry(cfg.env.fileHash(file.content), file.mtime)]);
    FirstIndexed(cfg.env, p, file);
    LastOnly([e], p, e);
    UpdateIsNoRename(cfg, s1, e, p);
    OneApplied(cfg, Settled(cfg.env, map[]), Noted(change, e), s1, e, slip, p);
    steps := Noted(change, e) + [DrainBegin(true)] + [ApplyNext] + [ApplyNext];
  }

  lemma FirstIndexed(env: Env, p: string, file: DiskFile)
    requires env.shouldIndex(p, file.content)
    ensures ApplyEvent(env, map[p := file], map[], Event(Create, p, None))
            == map[p := Entry(env.fileHash(file.content), file.mtime)]
  {
  }

  lemma UpdateIsNoRename(cfg: Config, s: State, e: Event, p: string)
    requires !e.kind.Rename?
    ensures SafeToRename(cfg, s, e, p, false)
  {
  }

  // ---------------------------------------------------------------- nothing lost, and too much kept

  /** An indexed file overwritten with content the filter chain rejects: every step is safe, the update skips the file, and
      at rest what was indexed before is served still. */
  lemma RejectedOverwriteStays(cfg: Config, p: string, before: DiskFile, after: DiskFile)
    returns (steps: seq<Step>, end: State)
    requires cfg.capacity >= 1 && cfg.watched(p) && cfg.walkable(p) && !cfg.env.shouldIndex(p, after.content)
    ensures Init(cfg, Settled(cfg.env, map[p := before]), p)
    ensures Reaches(cfg, Settled(cfg.env, map[p := before]), steps, end, -1, p)
    ensures |steps| == 6 && steps[0] == Write(p, after, true)
    ensures Quiescent(end) && InSync(cfg, end, p) && !Accepted(cfg, end, p) && !Rebuilt(cfg, end, p)
    ensures end.disk == map[p := after] && HashAt(end.index, p) == Some(cfg.env.fileHash(before.content))
  {
    hide Reaches, Dispatched, Coalesced, ApplyEvent, SafeToRename, Next, Possible, SafeFor;
    var s0, m := Settled(cfg.env, map[p := before]), Event(Modify, p, None);
    SettledIsInit(cfg, map[p := before], p);
    var s1 := OverwriteQueued(cfg, p, before, after);
    end := s0.(disk := map[p := after]);
    SkipsRejected(cfg.env, s0.index, p, after, m);
    LastOnly([m], p, m);
    UpdateIsNoRename(cfg, s1, m, p);
    OneApplied(cfg, s0, Noted(Write(p, after, true), m), s1, m, -1, p);
    steps := Noted(Write(p, after, true), m) + [DrainBegin(true)] + [ApplyNext] + [ApplyNext];
  }

  lemma OverwriteQueued(cfg: Config, p: string, before: DiskFile, after: DiskFile) returns (s: State)
    requires cfg.capacity >= 1 && cfg.watched(p)
    ensures s == Settled(cfg.env, map[p := before]).(disk := map[p := after], queue := [Event(Modify, p, None)])
    ensures Reaches(cfg, Settled(cfg.env, map[p := before]), Noted(Write(p, after, true), Event(Modify, p, None)), s, -1, p)
  {
    var s0, change, m := Settled(cfg.env, map[p := before]), Write(p, after, true), Event(Modify, p, None);
    assert s0.disk[p := after] == map[p := after] && [] + Noted(change, m) == Noted(change, m) && s0.queue + [m] == [m];
    s := s0.(disk := map[p := after], queue := [m]);
    Here(cfg, s0, -1, p);
    hide Reaches;
    ChangeQueued(cfg, s0, [], s0, change, m, -1, p);
  }

  lemma SkipsRejected(env: Env, idx: Paths, p: string, file: DiskFile, e: Event)
    requires !env.shouldIndex(p, file.content) && e == Event(Modify, p, None)
    ensures ApplyEvent(env, map[p := file], idx, e) == idx
  {
  }
}
