/** The periodic cleanup: dropping projects whose root stays away, pausing projects nobody asks about. */
module Cleanup {
  import opened Prelude

  datatype Limits = Limits(grace: real, idle: real)

  datatype ProjectState = ProjectState(firstMissing: Option<real>, paused: bool, lastQuery: real, queued: nat)

  // ---------------------------------------------------------------- one tick

  function Stamped(s: ProjectState, now: real, present: bool): ProjectState {
    if present then s.(firstMissing := None)
    else if s.firstMissing.None? then s.(firstMissing := Some(now))
    else s
  }

  predicate Drops(limits: Limits, s: ProjectState, now: real, present: bool) {
    !present && now - Stamped(s, now, present).firstMissing.value >= limits.grace
  }

  function AfterTick(limits: Limits, s: ProjectState, now: real, present: bool): ProjectState {
    var t := Stamped(s, now, present);
    t.(paused := t.paused || (now - t.lastQuery >= limits.idle && t.queued == 0))
  }

  class Cleaner {
    const limits: Limits
    var states: map<string, ProjectState>
    var deleted: seq<string>

    constructor (limits: Limits)
      ensures this.limits == limits && states == map[] && deleted == []
    {
      this.limits := limits;
      states, deleted := map[], [];
    }

    /** The Tier 1 and Tier 2 part of `add_project`. */
    method AddProject(name: string, now: real)
      modifies this`states
      ensures states == old(states)[name := Readded(if name in old(states) then Some(old(states)[name]) else None, now)]
    {
      if name in states {
        states := states[name := states[name].(firstMissing := None, paused := false)];
      } else {
        states := states[name := ProjectState(None, false, now, 0)];
      }
    }

    /** `_cleanup_tick`: `present` is the set of projects whose root exists. */
    method CleanupTick(now: real, present: set<string>)
      modifies this`states, this`deleted
      ensures states == map n | n in old(states) && !Drops(limits, old(states)[n], now, n in present)
                          :: AfterTick(limits, old(states)[n], now, n in present)
      ensures forall n :: n in deleted <==>
                n in old(deleted) || (n in old(states) && Drops(limits, old(states)[n], now, n in present))
    {
      var todo := states.Keys;
      while todo != {}
        invariant todo <= old(states).Keys
        invariant states == map n | n in old(states) && (n in todo || !Drops(limits, old(states)[n], now, n in present))
                              :: if n in todo then old(states)[n] else AfterTick(limits, old(states)[n], now, n in present)
        invariant forall n :: n in deleted <==>
                    n in old(deleted)
                    || (n in old(states) && n !in todo && Drops(limits, old(states)[n], now, n in present))
        decreases todo
      {
        var name :| name in todo;
        var s := states[name];
        todo := todo - {name};
        if name !in present {
          if s.firstMissing.None? {
            s := s.(firstMissing := Some(now));
          }
          if now - s.firstMissing.value >= limits.grace {
            deleted := deleted + [name];
            states := states - {name};
            continue;
          }
        } else if s.firstMissing.Some? {
          s := s.(firstMissing := None);
        }
        if !s.paused && now - s.lastQuery >= limits.idle && s.queued == 0 {
          s := s.(paused := true);
        }
        states := states[name := s];
      }
    }
  }

  function Readded(s: Option<ProjectState>, now: real): ProjectState {
    if s.Some? then s.value.(firstMissing := None, paused := false) else ProjectState(None, false, now, 0)
  }

  // ---------------------------------------------------------------- one project over a run

  datatype Step = Tick(now: real, present: bool) | ReAdd(now: real) | Query(now: real) | Queued(events: nat)

  /** A project that is not watched has no state. A query resumes a paused project. */
  function Next(limits: Limits, s: Option<ProjectState>, step: Step): Option<ProjectState> {
    match step
    case ReAdd(now) => Some(Readded(s, now))
    case Tick(now, present) =>
      if s.None? || Drops(limits, s.value, now, present) then None else Some(AfterTick(limits, s.value, now, present))
    case Query(now) => if s.None? then None else Some(s.value.(lastQuery := now, paused := false))
    case Queued(events) => if s.None? then None else Some(s.value.(queued := events))
  }

  function Run(limits: Limits, steps: seq<Step>): Option<ProjectState> {
    if steps == [] then None else Next(limits, Run(limits, steps[..|steps| - 1]), steps[|steps| - 1])
  }

  predicate Breaks(step: Step) {
    step.ReAdd? || (step.Tick? && step.present)
  }

  /** From the tick `k` on the root was missing at every tick and the project was not added again. */
  ghost predicate Unbroken(steps: seq<Step>, k: nat) {
    k < |steps| && steps[k].Tick? && forall j :: k <= j < |steps| ==> !Breaks(steps[j])
  }

  /** `k` is the first tick of the unbroken run of missing ticks that `steps` ends with. */
  ghost predicate FirstMissing(steps: seq<Step>, k: nat) {
    Unbroken(steps, k) && forall i: nat :: i < k ==> !Unbroken(steps, i)
  }

  lemma UnbrokenStep(before: seq<Step>, last: Step, k: nat)
    ensures k < |before| ==> (Unbroken(before + [last], k) <==> Unbroken(before, k) && !Breaks(last))
    ensures Unbroken(before + [last], |before|) <==> last.Tick? && !last.present
  {
    var steps := before + [last];
    if k < |before| && Unbroken(before + [last], k) {
      assert forall j :: k <= j < |before| ==> before[j] == steps[j];
      assert !Breaks(steps[|before|]);
    }
  }

  /** What the stamp says about the steps so far. */
  ghost predicate StampSays(stamp: Option<real>, steps: seq<Step>) {
    if stamp.Some? then exists k: nat :: FirstMissing(steps, k) && steps[k].now == stamp.value
    else forall k: nat :: !Unbroken(steps, k)
  }

  lemma StampStep(stamp: Option<real>, before: seq<Step>, last: Step)
    requires StampSays(stamp, before)
    ensures StampSays(if Breaks(last) then None else if last.Tick? && stamp.None? then Some(last.now) else stamp, before + [last])
  {
    var steps := before + [last];
    forall i: nat
      ensures i < |before| ==> (Unbroken(steps, i) <==> Unbroken(before, i) && !Breaks(last))
      ensures Unbroken(steps, |before|) <==> last.Tick? && !last.present
      ensures i > |before| ==> !Unbroken(steps, i)
    {
      UnbrokenStep(before, last, i);
    }
    if !Breaks(last) {
      if stamp.Some? {
        var k: nat :| FirstMissing(before, k) && before[k].now == stamp.value;
        hide Unbroken;
        assert k < |before| by {
          InRange(before, k);
        }
        assert FirstMissing(steps, k);
      } else if last.Tick? {
        hide Unbroken;
        assert FirstMissing(steps, |before|);
      }
    }
  }

  lemma InRange(steps: seq<Step>, k: nat)
    requires FirstMissing(steps, k)
    ensures k < |steps| && steps[k].Tick?
  {
  }

  /** The stamp is there exactly when the last ticks found the root missing, and it is the time of the first of them. */
  lemma {:induction false} StampIsFirstMissing(limits: Limits, steps: seq<Step>)
    requires Run(limits, steps).Some?
    ensures StampSays(Run(limits, steps).value.firstMissing, steps)
    decreases |steps|
  {
    var n := |steps| - 1;
    assert steps == steps[..n] + [steps[n]];
    if Breaks(steps[n]) {
      forall k: nat ensures !Unbroken(steps, k) {
        UnbrokenStep(steps[..n], steps[n], k);
      }
    } else {
      StampIsFirstMissing(limits, steps[..n]);
      StampStep(Run(limits, steps[..n]).value.firstMissing, steps[..n], steps[n]);
    }
  }

  /** A watched project is dropped by a tick if and only if that tick ends an unbroken run of ticks that all missed
      the root, without a re-add, and the first of them is at least the grace period ago. */
  lemma DroppedExact(limits: Limits, steps: seq<Step>, now: real, present: bool)
    requires Run(limits, steps).Some?
    ensures var all := steps + [Tick(now, present)];
            Run(limits, all).None? <==> exists k: nat :: FirstMissing(all, k) && now - all[k].now >= limits.grace
  {
    var all := steps + [Tick(now, present)];
    assert all[..|all| - 1] == steps;
    StampIsFirstMissing(limits, steps);
    StampStep(Run(limits, steps).value.firstMissing, steps, Tick(now, present));
    var stamp := Stamped(Run(limits, steps).value, now, present).firstMissing;
    assert StampSays(stamp, all);
    if stamp.Some? {
      var k: nat :| FirstMissing(all, k) && all[k].now == stamp.value;
      forall j: nat | FirstMissing(all, j) ensures j == k {
      }
    }
  }

  // ---------------------------------------------------------------- pausing, over a run

  /** When the project was last asked about: by a query, or by being added for the first time since it was last dropped. */
  function LastAsked(limits: Limits, steps: seq<Step>): real {
    if steps == [] then 0.0
    else
      var k := |steps| - 1;
      match steps[k]
      case Query(now) => now
      case ReAdd(now) => if Run(limits, steps[..k]).None? then now else LastAsked(limits, steps[..k])
      case _ => LastAsked(limits, steps[..k])
  }

  /** How many events its queue was last known to hold since it was added. */
  function LastQueued(limits: Limits, steps: seq<Step>): nat {
    if steps == [] then 0
    else
      var k := |steps| - 1;
      match steps[k]
      case Queued(events) => events
      case ReAdd(_) => if Run(limits, steps[..k]).None? then 0 else LastQueued(limits, steps[..k])
      case _ => LastQueued(limits, steps[..k])
  }

  /** Step `k` is a tick that found the project idle for long enough with nothing queued, and nobody has asked about it or
      added it again since. */
  ghost predicate PausedSince(limits: Limits, steps: seq<Step>, k: nat) {
    && k < |steps| && steps[k].Tick?
    && steps[k].now - LastAsked(limits, steps[..k]) >= limits.idle && LastQueued(limits, steps[..k]) == 0
    && forall j :: k < j < |steps| ==> !steps[j].Query? && !steps[j].ReAdd?
  }

  lemma {:induction false} AskedAndQueued(limits: Limits, steps: seq<Step>)
    requires Run(limits, steps).Some?
    ensures var s := Run(limits, steps).value;
            s.lastQuery == LastAsked(limits, steps) && s.queued == LastQueued(limits, steps)
    decreases |steps|
  {
    var k := |steps| - 1;
    if Run(limits, steps[..k]).Some? {
      AskedAndQueued(limits, steps[..k]);
    }
  }

  lemma PausedStep(limits: Limits, steps: seq<Step>, k: nat)
    requires steps != []
    ensures var n := |steps| - 1;
            && (k < n ==> (PausedSince(limits, steps, k)
                           <==> PausedSince(limits, steps[..n], k) && !steps[n].Query? && !steps[n].ReAdd?))
            && (PausedSince(limits, steps, n)
                <==> steps[n].Tick? && steps[n].now - LastAsked(limits, steps[..n]) >= limits.idle
                     && LastQueued(limits, steps[..n]) == 0)
  {
    hide LastAsked, LastQueued;
    var n := |steps| - 1;
    if k < n {
      assert steps[..n][..k] == steps[..k];
      assert forall j :: 0 <= j < n ==> steps[..n][j] == steps[j];
    }
  }

  /** A watched project is paused if and only if some tick found it idle and quiet and nobody has asked for it since. */
  lemma {:induction false} PausedExact(limits: Limits, steps: seq<Step>)
    requires Run(limits, steps).Some?
    ensures Run(limits, steps).value.paused <==> exists k: nat :: PausedSince(limits, steps, k)
    decreases |steps|
  {
    hide PausedSince, LastAsked, LastQueued;
    var n := |steps| - 1;
    forall k: nat
      ensures k < n ==> (PausedSince(limits, steps, k)
                         <==> PausedSince(limits, steps[..n], k) && !steps[n].Query? && !steps[n].ReAdd?)
      ensures k > n ==> !PausedSince(limits, steps, k)
      ensures k >= n ==> !PausedSince(limits, steps[..n], k)
    {
      PausedStep(limits, steps, k);
      PausedInRange(limits, steps, k);
      PausedInRange(limits, steps[..n], k);
    }
    PausedStep(limits, steps, n);
    if Run(limits, steps[..n]).Some? {
      AskedAndQueued(limits, steps[..n]);
      PausedExact(limits, steps[..n]);
    }
  }

  lemma PausedInRange(limits: Limits, steps: seq<Step>, k: nat)
    ensures PausedSince(limits, steps, k) ==> k < |steps|
  {
  }
}
