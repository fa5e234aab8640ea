/** Rescan rounds: what one drain of a flagged rescan achieves, and when it achieves nothing. */
module Storm {
  import opened Prelude
  import opened Records
  import opened Events
  import opened EventProofs
  import opened PathIndex
  import opened Watch
  import opened WatchProofs

  // ---------------------------------------------------------------- queueing many events

  function EnqueueAll(queue: seq<Event>, rescan: bool, es: seq<Event>, capacity: nat): (seq<Event>, bool) {
    if es == [] then (queue, rescan)
    else
      var (q, r) := EnqueueAll(queue, rescan, es[..|es| - 1], capacity);
      Enqueue(q, r, es[|es| - 1], capacity)
  }

  /** All events are queued if they fit; one too many throws everything away and flags a rescan. */
  lemma {:induction false} EnqueueAllExact(queue: seq<Event>, es: seq<Event>, capacity: nat)
    requires |queue| <= capacity
    ensures EnqueueAll(queue, false, es, capacity)
            == if |queue| + |es| <= capacity then (queue + es, false) else ([], true)
    decreases |es|
  {
    if es == [] {
      assert queue + es == queue;
    } else {
      var k := |es| - 1;
      EnqueueAllExact(queue, es[..k], capacity);
      assert (queue + es[..k]) + [es[k]] == queue + es;
    }
  }

  // ---------------------------------------------------------------- one whole walk over a static disk

  predicate IsDrift(cfg: Config, disk: Disk, recorded: map<string, int>, p: string) {
    p in disk && cfg.walkable(p) && (p !in recorded || disk[p].mtime > recorded[p])
  }

  predicate IsGone(cfg: Config, disk: Disk, recorded: map<string, int>, p: string) {
    p in recorded && !(p in disk && cfg.walkable(p))
  }

  function DriftEvents(cfg: Config, disk: Disk, recorded: map<string, int>, order: seq<string>): seq<Event> {
    if order == [] then []
    else
      var k := |order| - 1;
      DriftEvents(cfg, disk, recorded, order[..k])
      + if IsDrift(cfg, disk, recorded, order[k]) then [DriftEvent(recorded, order[k])] else []
  }

  function GoneEvents(gone: seq<string>): (r: seq<Event>)
    ensures |r| == |gone|
  {
    if gone == [] then []
    else GoneEvents(gone[..|gone| - 1]) + [Event(Delete, gone[|gone| - 1], None)]
  }

  /** The orders in which one walk may meet the files and then report the missing ones. */
  ghost predicate WalkOrder(cfg: Config, disk: Disk, recorded: map<string, int>, order: seq<string>, gone: seq<string>) {
    && Distinct(order) && (forall p :: p in order <==> p in disk && cfg.walkable(p))
    && Distinct(gone) && (forall p :: p in gone <==> IsGone(cfg, disk, recorded, p))
  }

  function WalkEvents(cfg: Config, disk: Disk, recorded: map<string, int>, order: seq<string>, gone: seq<string>)
    : seq<Event>
  {
    DriftEvents(cfg, disk, recorded, order) + GoneEvents(gone)
  }

  /** Everything the walk finds to report. */
  function DriftSet(cfg: Config, disk: Disk, recorded: map<string, int>): set<string> {
    (set p | p in disk && IsDrift(cfg, disk, recorded, p)) + (set p | p in recorded && IsGone(cfg, disk, recorded, p))
  }

  function Recorded(idx: Paths): map<string, int> {
    map p | p in idx :: idx[p].mtime
  }

  lemma {:induction false} DriftEventsRaw(cfg: Config, disk: Disk, recorded: map<string, int>, order: seq<string>)
    ensures AllRaw(DriftEvents(cfg, disk, recorded, order))
    decreases |order|
  {
    hide IsDrift;
    if order != [] {
      DriftEventsRaw(cfg, disk, recorded, order[..|order| - 1]);
    }
  }

  lemma {:induction false} DriftEventsAre(cfg: Config, disk: Disk, recorded: map<string, int>, order: seq<string>, p: string)
    ensures LastFor(DriftEvents(cfg, disk, recorded, order), p)
            == if p in order && IsDrift(cfg, disk, recorded, p) then Some(DriftEvent(recorded, p)) else None
    decreases |order|
  {
    hide Order, IsDrift;
    if order != [] {
      var k := |order| - 1;
      DriftEventsAre(cfg, disk, recorded, order[..k], p);
      assert p in order <==> p in order[..k] || p == order[k] by {
        assert order == order[..k] + [order[k]];
      }
      var before := DriftEvents(cfg, disk, recorded, order[..k]);
      LastForSnoc(before, DriftEvent(recorded, order[k]), p);
      assert DriftEvents(cfg, disk, recorded, order)
          == if IsDrift(cfg, disk, recorded, order[k]) then before + [DriftEvent(recorded, order[k])] else before + [];
      assert before + [] == before;
      hide LastFor, DriftEvents, DriftEvent;
    }
  }

  lemma LastForSnoc(es: seq<Event>, e: Event, p: string)
    ensures LastFor(es + [e], p) == if e.path == p then Some(e) else LastFor(es, p)
  {
    assert (es + [e])[..|es|] == es;
  }

  lemma {:induction false} LastForConcat(a: seq<Event>, b: seq<Event>, p: string)
    ensures LastFor(a + b, p) == if LastFor(b, p).Some? then LastFor(b, p) else LastFor(a, p)
    decreases |b|
  {
    hide Order;
    if b == [] {
      assert a + b == a;
    } else {
      var k := |b| - 1;
      assert a + b == (a + b[..k]) + [b[k]];
      LastForConcat(a, b[..k], p);
      LastForSnoc(a + b[..k], b[k], p);
    }
  }

  lemma {:induction false} GoneEventsAre(gone: seq<string>, p: string)
    ensures AllRaw(GoneEvents(gone))
    ensures LastFor(GoneEvents(gone), p) == if p in gone then Some(Event(Delete, p, None)) else None
    decreases |gone|
  {
    hide Order;
    if gone != [] {
      var k := |gone| - 1;
      GoneEventsAre(gone[..k], p);
      assert gone == gone[..k] + [gone[k]];
      LastForSnoc(GoneEvents(gone[..k]), Event(Delete, gone[k], None), p);
    }
  }

  /** What a whole walk says of a path. */
  lemma WalkEventsAre(cfg: Config, disk: Disk, recorded: map<string, int>, order: seq<string>, gone: seq<string>, p: string)
    requires WalkOrder(cfg, disk, recorded, order, gone)
    ensures AllRaw(WalkEvents(cfg, disk, recorded, order, gone))
    ensures LastFor(WalkEvents(cfg, disk, recorded, order, gone), p)
            == if IsGone(cfg, disk, recorded, p) then Some(Event(Delete, p, None))
               else if IsDrift(cfg, disk, recorded, p) then Some(Event(if p in recorded then Modify else Create, p, None))
               else None
  {
    hide Order, LastFor;
    DriftEventsRaw(cfg, disk, recorded, order);
    DriftEventsAre(cfg, disk, recorded, order, p);
    GoneEventsAre(gone, p);
    LastForConcat(DriftEvents(cfg, disk, recorded, order), GoneEvents(gone), p);
  }

  function Elems(s: seq<string>): set<string> { set p | p in s }

  lemma ElemsSnoc(s: seq<string>)
    requires Distinct(s) && s != []
    ensures Elems(s) == Elems(s[..|s| - 1]) + {s[|s| - 1]} && s[|s| - 1] !in Elems(s[..|s| - 1])
  {
    assert s == s[..|s| - 1] + [s[|s| - 1]];
  }

  function DriftIn(cfg: Config, disk: Disk, recorded: map<string, int>, ps: set<string>): set<string> {
    set p | p in ps && IsDrift(cfg, disk, recorded, p)
  }

  lemma DriftInAdd(cfg: Config, disk: Disk, recorded: map<string, int>, ps: set<string>, p: string)
    requires p !in ps
    ensures |DriftIn(cfg, disk, recorded, ps + {p})|
            == |DriftIn(cfg, disk, recorded, ps)| + if IsDrift(cfg, disk, recorded, p) then 1 else 0
  {
    hide IsDrift;
    var a := DriftIn(cfg, disk, recorded, ps);
    if IsDrift(cfg, disk, recorded, p) {
      assert DriftIn(cfg, disk, recorded, ps + {p}) == a + {p};
    } else {
      assert DriftIn(cfg, disk, recorded, ps + {p}) == a;
    }
  }

  lemma {:induction false} DriftCount(cfg: Config, disk: Disk, recorded: map<string, int>, order: seq<string>)
    requires Distinct(order)
    ensures |DriftEvents(cfg, disk, recorded, order)| == |DriftIn(cfg, disk, recorded, Elems(order))|
    decreases |order|
  {
    if order == [] {
      assert DriftIn(cfg, disk, recorded, Elems(order)) == {};
    } else {
      var k := |order| - 1;
      DriftCount(cfg, disk, recorded, order[..k]);
      ElemsSnoc(order);
      DriftInAdd(cfg, disk, recorded, Elems(order[..k]), order[k]);
      hide IsDrift, DriftIn, Elems;
    }
  }

  lemma {:induction false} DistinctCount(s: seq<string>)
    requires Distinct(s)
    ensures |Elems(s)| == |s|
    decreases |s|
  {
    if s == [] {
      assert Elems(s) == {};
    } else {
      DistinctCount(s[..|s| - 1]);
      ElemsSnoc(s);
      hide Elems;
    }
  }

  /** A walk emits one event per drifted or missing path, in whatever order it goes. */
  lemma WalkEventCount(cfg: Config, disk: Disk, recorded: map<string, int>, order: seq<string>, gone: seq<string>)
    requires WalkOrder(cfg, disk, recorded, order, gone)
    ensures |WalkEvents(cfg, disk, recorded, order, gone)| == |DriftSet(cfg, disk, recorded)|
  {
    DriftCount(cfg, disk, recorded, order);
    DistinctCount(gone);
    var drifted, missing := DriftIn(cfg, disk, recorded, Elems(order)), Elems(gone);
    DriftSetSplits(cfg, disk, recorded, order, gone);
    hide DriftIn, Elems, DriftSet, DriftEvents, WalkOrder;
    assert |drifted + missing| == |drifted| + |missing|;
  }

  lemma DriftSetSplits(cfg: Config, disk: Disk, recorded: map<string, int>, order: seq<string>, gone: seq<string>)
    requires WalkOrder(cfg, disk, recorded, order, gone)
    ensures DriftSet(cfg, disk, recorded) == DriftIn(cfg, disk, recorded, Elems(order)) + Elems(gone)
    ensures DriftIn(cfg, disk, recorded, Elems(order)) !! Elems(gone)
  {
  }

  // ---------------------------------------------------------------- the rescan round as machine steps

  lemma {:induction false} ExecConcat(cfg: Config, s: State, a: seq<Step>, b: seq<Step>)
    requires Exec(cfg, s, a).Some?
    ensures Exec(cfg, s, a + b) == Exec(cfg, Exec(cfg, s, a).value, b)
    decreases |a|
  {
    if a == [] {
      assert a + b == b;
    } else {
      assert (a + b)[1..] == a[1..] + b;
      ExecConcat(cfg, Next(cfg, s, a[0]), a[1..], b);
    }
  }

  lemma ExecSnoc(cfg: Config, s: State, a: seq<Step>, step: Step)
    requires Exec(cfg, s, a).Some? && Possible(cfg, Exec(cfg, s, a).value, step)
    ensures Exec(cfg, s, a + [step]) == Some(Next(cfg, Exec(cfg, s, a).value, step))
  {
    ExecConcat(cfg, s, a, [step]);
    var s' := Exec(cfg, s, a).value;
    assert Exec(cfg, Next(cfg, s', step), [step][1..]) == Some(Next(cfg, s', step));
  }

  /** Meeting one file, and queueing what it says. */
  function VisitSteps(cfg: Config, disk: Disk, recorded: map<string, int>, p: string): seq<Step> {
    [Visit(ByWorker, p)] + if IsDrift(cfg, disk, recorded, p) then [Report(ByWorker)] else []
  }

  function Visits(cfg: Config, disk: Disk, recorded: map<string, int>, order: seq<string>): seq<Step> {
    if order == [] then []
    else
      var k := |order| - 1;
      Visits(cfg, disk, recorded, order[..k]) + VisitSteps(cfg, disk, recorded, order[k])
  }

  function Reports(gone: seq<string>): seq<Step> {
    if gone == [] then [] else Reports(gone[..|gone| - 1]) + [ReportGone(ByWorker, gone[|gone| - 1])]
  }

  function WithQueue(s: State, qr: (seq<Event>, bool), worker: Worker): State {
    s.(queue := qr.0, rescan := qr.1, worker := worker)
  }

  lemma VisitExec(cfg: Config, s: State, p: string)
    requires s.worker.Walking? && s.worker.walk.found.None? && p !in s.worker.walk.seen && p in s.disk && cfg.walkable(p)
    ensures var w := s.worker.walk;
            var qr := if IsDrift(cfg, s.disk, w.recorded, p)
                      then Enqueue(s.queue, s.rescan, DriftEvent(w.recorded, p), cfg.capacity)
                      else (s.queue, s.rescan);
            Exec(cfg, s, VisitSteps(cfg, s.disk, w.recorded, p))
            == Some(WithQueue(s, qr, Walking(w.(todo := w.todo - {p}, seen := w.seen + {p}))))
  {
    var w := s.worker.walk;
    ExecSnoc(cfg, s, [], Visit(ByWorker, p));
    assert [] + [Visit(ByWorker, p)] == [Visit(ByWorker, p)];
    if IsDrift(cfg, s.disk, w.recorded, p) {
      assert Next(cfg, s, Visit(ByWorker, p)) == Found(s, ByWorker, p);
      ExecSnoc(cfg, s, [Visit(ByWorker, p)], Report(ByWorker));
    } else {
      assert [Visit(ByWorker, p)] + [] == [Visit(ByWorker, p)];
    }
  }

  /** Meeting the files of `order` one by one queues exactly their drift events. */
  lemma {:induction false} VisitsExec(cfg: Config, s: State, recorded: map<string, int>, todo: set<string>, order: seq<string>)
    requires s.worker == Walking(Walk(recorded, todo, {}, None, {}))
    requires Distinct(order) && forall p :: p in order ==> p in s.disk && cfg.walkable(p)
    ensures Exec(cfg, s, Visits(cfg, s.disk, recorded, order))
            == Some(WithQueue(s, EnqueueAll(s.queue, s.rescan, DriftEvents(cfg, s.disk, recorded, order), cfg.capacity),
                              Walking(Walk(recorded, todo - Elems(order), Elems(order), None, {}))))
    decreases |order|
  {
    if order == [] {
      assert Elems(order) == {} && todo - Elems(order) == todo;
    } else {
      var k := |order| - 1;
      var p := order[k];
      VisitsExec(cfg, s, recorded, todo, order[..k]);
      ElemsSnoc(order);
      var seen := Elems(order[..k]);
      assert todo - Elems(order) == todo - seen - {p};
      var before := DriftEvents(cfg, s.disk, recorded, order[..k]);
      var qr := EnqueueAll(s.queue, s.rescan, before, cfg.capacity);
      var s0 := WithQueue(s, qr, Walking(Walk(recorded, todo - seen, seen, None, {})));
      VisitExec(cfg, s0, p);
      ExecConcat(cfg, s, Visits(cfg, s.disk, recorded, order[..k]), VisitSteps(cfg, s.disk, recorded, p));
      DriftStep(cfg, s.disk, recorded, order, s.queue, s.rescan);
      hide Exec, Next, Possible, IsDrift, DriftEvent, DriftEvents, Enqueue, EnqueueAll, Elems, VisitSteps;
    }
  }

  /** What the last file of the order adds to the queue. */
  lemma DriftStep(cfg: Config, disk: Disk, recorded: map<string, int>, order: seq<string>, queue: seq<Event>, rescan: bool)
    requires order != []
    ensures var k := |order| - 1;
            var qr := EnqueueAll(queue, rescan, DriftEvents(cfg, disk, recorded, order[..k]), cfg.capacity);
            EnqueueAll(queue, rescan, DriftEvents(cfg, disk, recorded, order), cfg.capacity)
            == if IsDrift(cfg, disk, recorded, order[k])
               then Enqueue(qr.0, qr.1, DriftEvent(recorded, order[k]), cfg.capacity)
               else qr
  {
    hide IsDrift, Enqueue;
    var k := |order| - 1;
    var before := DriftEvents(cfg, disk, recorded, order[..k]);
    assert (before + [DriftEvent(recorded, order[k])])[..|before|] == before;
    assert before + [] == before;
  }

  lemma ReportNext(cfg: Config, s: State, p: string)
    requires s.worker.Walking? && s.worker.walk.found.None? && s.worker.walk.todo == {}
    requires p in s.worker.walk.recorded && p !in s.worker.walk.seen && p !in s.worker.walk.reported
    ensures var w := s.worker.walk;
            && Possible(cfg, s, ReportGone(ByWorker, p))
            && Next(cfg, s, ReportGone(ByWorker, p))
               == WithQueue(s, Enqueue(s.queue, s.rescan, Event(Delete, p, None), cfg.capacity),
                            Walking(w.(reported := w.reported + {p})))
  {
  }

  /** Reporting the missing paths queues their DELETE events. */
  lemma {:induction false} ReportsExec(cfg: Config, s: State, recorded: map<string, int>, seen: set<string>, gone: seq<string>)
    requires s.worker == Walking(Walk(recorded, {}, seen, None, {}))
    requires Distinct(gone) && forall p :: p in gone ==> p in recorded && p !in seen
    ensures Exec(cfg, s, Reports(gone))
            == Some(WithQueue(s, EnqueueAll(s.queue, s.rescan, GoneEvents(gone), cfg.capacity),
                              Walking(Walk(recorded, {}, seen, None, Elems(gone)))))
    decreases |gone|
  {
    if gone == [] {
      assert Elems(gone) == {};
    } else {
      var k := |gone| - 1;
      var p := gone[k];
      ReportsExec(cfg, s, recorded, seen, gone[..k]);
      ElemsSnoc(gone);
      var before := GoneEvents(gone[..k]);
      assert (before + [Event(Delete, p, None)])[..|before|] == before;
      var qr := EnqueueAll(s.queue, s.rescan, before, cfg.capacity);
      var s0 := WithQueue(s, qr, Walking(Walk(recorded, {}, seen, None, Elems(gone[..k]))));
      ReportNext(cfg, s0, p);
      ExecSnoc(cfg, s, Reports(gone[..k]), ReportGone(ByWorker, p));
      hide Exec, Next, Possible, Enqueue, Elems;
    }
  }

  lemma {:induction false} EnqueueAllConcat(queue: seq<Event>, rescan: bool, a: seq<Event>, b: seq<Event>, capacity: nat)
    ensures var (q, r) := EnqueueAll(queue, rescan, a, capacity);
            EnqueueAll(queue, rescan, a + b, capacity) == EnqueueAll(q, r, b, capacity)
    decreases |b|
  {
    if b == [] {
      assert a + b == a;
    } else {
      var k := |b| - 1;
      assert (a + b)[..|a + b| - 1] == a + b[..k];
      EnqueueAllConcat(queue, rescan, a, b[..k], capacity);
    }
  }

  /** One rescan round of the worker: drain the flag, walk everything, finish. */
  function Round(cfg: Config, s: State, order: seq<string>, gone: seq<string>): seq<Step> {
    [DrainBegin(true), WalkStart(ByWorker)] + Visits(cfg, s.disk, Recorded(s.index), order) + Reports(gone)
    + [WalkFinish(ByWorker)]
  }

  /** A flagged rescan, nothing else under way. */
  predicate Storming(s: State) {
    s.rescan && s.queue == [] && s.worker.Idle?
  }

  lemma RoundExec(cfg: Config, s: State, order: seq<string>, gone: seq<string>)
    requires Storming(s) && WalkOrder(cfg, s.disk, Recorded(s.index), order, gone)
    ensures Exec(cfg, s, Round(cfg, s, order, gone))
            == Some(WithQueue(s, EnqueueAll([], false, WalkEvents(cfg, s.disk, Recorded(s.index), order, gone), cfg.capacity),
                              Idle))
  {
    var recorded := Recorded(s.index);
    var drift, missing := DriftEvents(cfg, s.disk, recorded, order), GoneEvents(gone);
    var w := BeginWalk(cfg, s);
    var s1 := WithQueue(s, ([], false), Walking(w));
    BeginExec(cfg, s);
    var seen := Elems(order);
    assert w.todo == seen;
    var visits := Visits(cfg, s.disk, recorded, order);
    VisitsExec(cfg, s1, recorded, w.todo, order);
    var qr := EnqueueAll([], false, drift, cfg.capacity);
    var s2 := WithQueue(s, qr, Walking(Walk(recorded, {}, seen, None, {})));
    assert w.todo - seen == {};
    assert Exec(cfg, s1, visits) == Some(s2);
    ReportsExec(cfg, s2, recorded, seen, gone);
    var qr' := EnqueueAll(qr.0, qr.1, missing, cfg.capacity);
    var s3 := WithQueue(s, qr', Walking(Walk(recorded, {}, seen, None, Elems(gone))));
    EnqueueAllConcat([], false, drift, missing, cfg.capacity);
    hide Exec, Next, Possible;
    var begin := [DrainBegin(true), WalkStart(ByWorker)];
    ExecConcat(cfg, s, begin, visits);
    ExecConcat(cfg, s, begin + visits, Reports(gone));
    FinishExec(cfg, s, s3, begin + visits + Reports(gone));
  }

  lemma BeginExec(cfg: Config, s: State)
    requires Storming(s)
    ensures Exec(cfg, s, [DrainBegin(true), WalkStart(ByWorker)])
            == Some(WithQueue(s, ([], false), Walking(BeginWalk(cfg, s))))
  {
    ExecSnoc(cfg, s, [], DrainBegin(true));
    assert [] + [DrainBegin(true)] == [DrainBegin(true)];
    ExecSnoc(cfg, s, [DrainBegin(true)], WalkStart(ByWorker));
    assert [DrainBegin(true)] + [WalkStart(ByWorker)] == [DrainBegin(true), WalkStart(ByWorker)];
  }

  lemma FinishExec(cfg: Config, s: State, s': State, steps: seq<Step>)
    requires Exec(cfg, s, steps) == Some(s') && s'.worker.Walking? && s'.worker.walk.found.None?
    requires s'.worker.walk.todo == {} && s'.worker.walk.recorded.Keys <= s'.worker.walk.seen + s'.worker.walk.reported
    ensures Exec(cfg, s, steps + [WalkFinish(ByWorker)]) == Some(s'.(worker := Idle))
  {
    ExecSnoc(cfg, s, steps, WalkFinish(ByWorker));
  }

  // ---------------------------------------------------------------- livelock and convergence

  /** A rescan round over a static disk returns to the very state it began in, nothing indexed and the
      rescan flagged again, if and only if more paths have drifted than the queue holds. */
  lemma StormLivelockExact(cfg: Config, s: State, order: seq<string>, gone: seq<string>)
    requires Storming(s) && WalkOrder(cfg, s.disk, Recorded(s.index), order, gone)
    ensures Exec(cfg, s, Round(cfg, s, order, gone)) == Some(s)
            <==> |DriftSet(cfg, s.disk, Recorded(s.index))| > cfg.capacity
  {
    RoundExec(cfg, s, order, gone);
    WalkEventCount(cfg, s.disk, Recorded(s.index), order, gone);
    EnqueueAllExact([], WalkEvents(cfg, s.disk, Recorded(s.index), order, gone), cfg.capacity);
  }

  function Applies(n: nat): seq<Step> {
    if n == 0 then [] else Applies(n - 1) + [ApplyNext]
  }

  /** Applying a batch event by event is applying it at once. */
  lemma {:induction false} AppliesExec(cfg: Config, s: State, es: seq<Event>, n: nat)
    requires s.worker == Applying(es) && n <= |es|
    ensures Exec(cfg, s, Applies(n))
            == Some(s.(index := ApplyAll(cfg.env, s.disk, s.index, es[..n]), worker := Applying(es[n..])))
    decreases n
  {
    if n > 0 {
      AppliesExec(cfg, s, es, n - 1);
      ExecSnoc(cfg, s, Applies(n - 1), ApplyNext);
      assert es[..n][..n - 1] == es[..n - 1];
      assert es[n - 1..][1..] == es[n..];
    }
  }

  /** Draining a queue completely: begin, apply every coalesced event, go idle. */
  function Drain(n: nat): seq<Step> {
    [DrainBegin(true)] + Applies(n) + [ApplyNext]
  }

  lemma DrainExec(cfg: Config, s: State)
    requires s.worker.Idle? && !s.rescan && s.queue != []
    ensures Exec(cfg, s, Drain(|Dispatched(Coalesced(s.queue))|))
            == Some(s.(queue := [], index := ApplyBatch(cfg.env, s.disk, s.index, s.queue)))
  {
    var es := Dispatched(Coalesced(s.queue));
    var s1 := s.(queue := [], worker := Applying(es));
    ExecSnoc(cfg, s, [], DrainBegin(true));
    assert [] + [DrainBegin(true)] == [DrainBegin(true)];
    AppliesExec(cfg, s1, es, |es|);
    ExecConcat(cfg, s, [DrainBegin(true)], Applies(|es|));
    ExecSnoc(cfg, s, [DrainBegin(true)] + Applies(|es|), ApplyNext);
    assert es[..|es|] == es;
  }

  /** Does the whole index agree with the disk? */
  ghost predicate AllInSync(cfg: Config, s: State) {
    forall p :: InSync(cfg, s, p)
  }

  /** Drains the queue if there is anything in it. */
  function DrainOf(es: seq<Event>): seq<Step> {
    if es == [] then [] else Drain(|Dispatched(Coalesced(es))|)
  }

  lemma NothingApplied(env: Env, disk: Disk, idx: Paths)
    ensures ApplyBatch(env, disk, idx, []) == idx
  {
    assert Coalesced([]) == [] && Dispatched([]) == [];
  }

  /** A walk and the update it triggers can bring the path in sync: if the filter accepts the file, the walk meets it,
      and it is indexed as it is or shows drift. */
  predicate Reachable(cfg: Config, s: State, p: string) {
    Indexable(cfg.env, s.disk, p) ==>
      cfg.walkable(p)
      && (HashAt(s.index, p) == Some(DiskHash(cfg.env, s.disk, p)) || IsDrift(cfg, s.disk, Recorded(s.index), p))
  }

  /** When the drift fits the queue, one walk and one drain bring everything in sync, if and only if every accepted
      file can be reached by walking and a RENAME synthesised on the way is faithful. */
  lemma StormConvergesExact(cfg: Config, s: State, order: seq<string>, gone: seq<string>)
    requires Storming(s) && WalkOrder(cfg, s.disk, Recorded(s.index), order, gone)
    requires |DriftSet(cfg, s.disk, Recorded(s.index))| <= cfg.capacity
    ensures var es := WalkEvents(cfg, s.disk, Recorded(s.index), order, gone);
            var s' := s.(rescan := false, index := ApplyBatch(cfg.env, s.disk, s.index, es));
            && Exec(cfg, s, Round(cfg, s, order, gone) + DrainOf(es)) == Some(s')
            && (AllInSync(cfg, s') <==>
                  && (forall p :: Reachable(cfg, s, p))
                  && (RenamePair(es).Some? ==>
                        FaithfulRename(cfg.env, s.disk, s.index, RenamePair(es).value.0, RenamePair(es).value.1)))
  {
    var es := WalkEvents(cfg, s.disk, Recorded(s.index), order, gone);
    var s' := s.(rescan := false, index := ApplyBatch(cfg.env, s.disk, s.index, es));
    RoundThenDrain(cfg, s, order, gone);
    forall p
      ensures InSync(cfg, s', p)
              <==> Reachable(cfg, s, p)
                   && (RenamePair(es).Some? && p == RenamePair(es).value.1 ==>
                         FaithfulRename(cfg.env, s.disk, s.index, RenamePair(es).value.0, p))
    {
      RoundSyncs(cfg, s, order, gone, p);
    }
    hide InSync, Reachable, FaithfulRename, Exec, WalkEvents, RenamePair, ApplyBatch, Round, DrainOf, WalkOrder, DriftSet;
    var all := forall p :: InSync(cfg, s', p);
    if RenamePair(es).Some? {
      assert all ==> InSync(cfg, s', RenamePair(es).value.1);
    }
    if all {
      forall p ensures Reachable(cfg, s, p) {
        assert InSync(cfg, s', p);
      }
    }
  }

  lemma RoundThenDrain(cfg: Config, s: State, order: seq<string>, gone: seq<string>)
    requires Storming(s) && WalkOrder(cfg, s.disk, Recorded(s.index), order, gone)
    requires |DriftSet(cfg, s.disk, Recorded(s.index))| <= cfg.capacity
    ensures var es := WalkEvents(cfg, s.disk, Recorded(s.index), order, gone);
            Exec(cfg, s, Round(cfg, s, order, gone) + DrainOf(es))
            == Some(s.(rescan := false, index := ApplyBatch(cfg.env, s.disk, s.index, es)))
  {
    var es := WalkEvents(cfg, s.disk, Recorded(s.index), order, gone);
    var s1 := s.(rescan := false, queue := es);
    RoundExec(cfg, s, order, gone);
    WalkEventCount(cfg, s.disk, Recorded(s.index), order, gone);
    EnqueueAllExact([], es, cfg.capacity);
    assert [] + es == es;
    if es == [] {
      NothingApplied(cfg.env, s.disk, s.index);
      assert Round(cfg, s, order, gone) + [] == Round(cfg, s, order, gone);
    } else {
      DrainExec(cfg, s1);
      ExecConcat(cfg, s, Round(cfg, s, order, gone), DrainOf(es));
    }
    hide Exec, WalkEvents, Round, Drain, WalkOrder, DriftSet, ApplyBatch;
  }

  /** One path after the round and the drain. */
  lemma RoundSyncs(cfg: Config, s: State, order: seq<string>, gone: seq<string>, p: string)
    requires WalkOrder(cfg, s.disk, Recorded(s.index), order, gone)
    ensures var es := WalkEvents(cfg, s.disk, Recorded(s.index), order, gone);
            InSync(cfg, s.(rescan := false, index := ApplyBatch(cfg.env, s.disk, s.index, es)), p)
            <==> Reachable(cfg, s, p)
                 && (RenamePair(es).Some? && p == RenamePair(es).value.1 ==>
                       FaithfulRename(cfg.env, s.disk, s.index, RenamePair(es).value.0, p))
  {
    var es := WalkEvents(cfg, s.disk, Recorded(s.index), order, gone);
    hide Order, LastFor, WalkEvents, RenamePair, Surviving, ApplyBatch, ApplyUpdate, ApplyRename;
    WalkEventsAre(cfg, s.disk, Recorded(s.index), order, gone, p);
    ApplyBatchIs(cfg.env, s.disk, s.index, es, p);
    HashOfGet(ApplyBatch(cfg.env, s.disk, s.index, es), p);
    UpdateAt(cfg.env, s.disk, s.index, p);
    if RenamePair(es).Some? && p == RenamePair(es).value.1 {
      RenameAt(cfg.env, s.disk, s.index, RenamePair(es).value.0, p);
    }
  }

  /** So a flagged rescan makes good what it stands for: a path the invariant accounts for, about which nothing else is
      on its way, is in sync after the round and the drain unless an unfaithful RENAME names it. */
  lemma StormRecovers(cfg: Config, s: State, order: seq<string>, gone: seq<string>, p: string)
    requires Storming(s) && WalkOrder(cfg, s.disk, Recorded(s.index), order, gone)
    requires Walks(cfg, p) && PathInv(cfg, s, p, false) && !Outstanding(s, p)
    ensures var es := WalkEvents(cfg, s.disk, Recorded(s.index), order, gone);
            InSync(cfg, s.(rescan := false, index := ApplyBatch(cfg.env, s.disk, s.index, es)), p)
            <==> (RenamePair(es).Some? && p == RenamePair(es).value.1 ==>
                    FaithfulRename(cfg.env, s.disk, s.index, RenamePair(es).value.0, p))
  {
    NothingSaysNothing(p);
    assert Reachable(cfg, s, p);
    hide LastSays, InSync, Reachable, WalkOrder, WalkEvents, ApplyBatch, RenamePair;
    RoundSyncs(cfg, s, order, gone, p);
  }

  // ---------------------------------------------------------------- drift that never goes away

  /** An update settles the drift it is triggered by if and only if the filter accepts the file and its hash is new;
      a file touched without a change, or rejected, is reported by the next walk again. */
  lemma UpdateSettlesExact(cfg: Config, s: State, p: string)
    requires IsDrift(cfg, s.disk, Recorded(s.index), p)
    ensures !IsDrift(cfg, s.disk, Recorded(ApplyUpdate(cfg.env, s.disk, s.index, p)), p)
            <==> Indexable(cfg.env, s.disk, p) && HashAt(s.index, p) != Some(DiskHash(cfg.env, s.disk, p))
    ensures IsDrift(cfg, s.disk, Recorded(ApplyUpdate(cfg.env, s.disk, s.index, p)), p) <==> InSync(cfg, s, p)
  {
    UpdateAt(cfg.env, s.disk, s.index, p);
    UpdateHash(cfg.env, s.disk, s.index, p);
  }

  /** After a rescan round and its drain, the next walk reports a path if and only if this one did and
      its update had nothing to index; missing files are settled for good. */
  lemma ResidualDriftExact(cfg: Config, s: State, order: seq<string>, gone: seq<string>, p: string)
    requires WalkOrder(cfg, s.disk, Recorded(s.index), order, gone)
    ensures var idx := ApplyBatch(cfg.env, s.disk, s.index, WalkEvents(cfg, s.disk, Recorded(s.index), order, gone));
            && !IsGone(cfg, s.disk, Recorded(idx), p)
            && (IsDrift(cfg, s.disk, Recorded(idx), p)
                <==> IsDrift(cfg, s.disk, Recorded(s.index), p) && InSync(cfg, s, p))
  {
    var es := WalkEvents(cfg, s.disk, Recorded(s.index), order, gone);
    hide Order, LastFor, WalkEvents, RenamePair, Surviving, ApplyBatch, ApplyUpdate, ApplyRename;
    WalkEventsAre(cfg, s.disk, Recorded(s.index), order, gone, p);
    ApplyBatchIs(cfg.env, s.disk, s.index, es, p);
    UpdateAt(cfg.env, s.disk, s.index, p);
    if RenamePair(es).Some? && p == RenamePair(es).value.1 {
      var source := RenamePair(es).value.0;
      WalkEventsAre(cfg, s.disk, Recorded(s.index), order, gone, source);
      assert LastFor(es, source).value.kind.Delete?;
      RenameAt(cfg.env, s.disk, s.index, source, p);
    }
  }
}
