/** The lock file that keeps a second daemon from starting, step by step. */
module SingletonLocks {
  import opened Prelude

  /** Where a process stands: a file opened but not locked yet, a lock held, or a lock given up but the path not removed yet. */
  datatype Proc = Idle | Opened(inode: nat) | Holding(inode: nat) | Unlocked

  /** The file the path names, the next inode, who locks which inode, and the processes that are not idle. */
  datatype State = State(path: Option<nat>, next: nat, locks: map<nat, nat>, procs: map<nat, Proc>)

  datatype Step = Open(pid: nat) | Lock(pid: nat) | Unlock(pid: nat) | Unlink(pid: nat) | Crash(pid: nat)

  const INITIAL := State(None, 0, map[], map[])

  function ProcOf(s: State, pid: nat): Proc { if pid in s.procs then s.procs[pid] else Idle }

  predicate Enabled(s: State, step: Step) {
    match step
    case Open(p) => ProcOf(s, p).Idle?
    case Lock(p) => ProcOf(s, p).Opened?
    case Unlock(p) => ProcOf(s, p).Holding?
    case Unlink(p) => ProcOf(s, p).Unlocked?
    case Crash(_) => true
  }

  /** The lock without the process's own entry, if it has one. */
  function LocksWithout(s: State, p: nat): map<nat, nat> {
    match ProcOf(s, p)
    case Holding(i) => s.locks - {i}
    case _ => s.locks
  }

  function Next(s: State, step: Step): State
    requires Enabled(s, step)
  {
    match step
    case Open(p) =>
      if s.path.Some? then s.(procs := s.procs[p := Opened(s.path.value)])
      else s.(path := Some(s.next), next := s.next + 1, procs := s.procs[p := Opened(s.next)])
    case Lock(p) =>
      var i := ProcOf(s, p).inode;
      if i in s.locks then s.(procs := s.procs[p := Idle])
      else s.(locks := s.locks[i := p], procs := s.procs[p := Holding(i)])
    case Unlock(p) => s.(locks := LocksWithout(s, p), procs := s.procs[p := Unlocked])
    case Unlink(p) => s.(path := None, procs := s.procs[p := Idle])
    case Crash(p) => s.(locks := LocksWithout(s, p), procs := s.procs[p := Idle])
  }

  // ---------------------------------------------------------------- the lock object

  class Kernel {
    var state: State

    constructor ()
      ensures state == INITIAL
    {
      state := INITIAL;
    }

    method Take(step: Step)
      requires Enabled(state, step)
      modifies this
      ensures state == Next(old(state), step)
    {
      state := Next(state, step);
    }
  }

  class SingletonLock {
    const pid: nat
    const kernel: Kernel
    var fh: Option<nat>
    var acquired: bool

    ghost predicate Valid() reads this, kernel {
      && acquired == fh.Some?
      && ProcOf(kernel.state, pid) == if acquired then Holding(fh.value) else Idle
    }

    constructor (pid: nat, kernel: Kernel)
      requires ProcOf(kernel.state, pid).Idle?
      ensures Valid() && !acquired && this.pid == pid && this.kernel == kernel
    {
      this.pid, this.kernel, fh, acquired := pid, kernel, None, false;
    }

    /** `acquire`, undisturbed. */
    method Acquire() returns (ok: bool)
      requires Valid()
      modifies this, kernel
      ensures Valid() && ok == acquired
      ensures old(acquired) ==> acquired && kernel.state == old(kernel.state)
      ensures !old(acquired) ==> kernel.state == AcquireAll(old(kernel.state), pid)
    {
      if acquired {
        return true;
      }
      kernel.Take(Open(pid));
      var inode := ProcOf(kernel.state, pid).inode;
      kernel.Take(Lock(pid));
      if ProcOf(kernel.state, pid).Idle? {
        return false;
      }
      fh, acquired := Some(inode), true;
      return true;
    }

    /** `release`, undisturbed. */
    method Release()
      requires Valid()
      modifies this, kernel
      ensures Valid() && !acquired
      ensures kernel.state == if old(acquired) then ReleaseAll(old(kernel.state), pid) else old(kernel.state)
    {
      if !acquired || fh.None? {
        return;
      }
      kernel.Take(Unlock(pid));
      kernel.Take(Unlink(pid));
      fh, acquired := None, false;
    }
  }

  /** Open and lock with nothing in between. */
  function AcquireAll(s: State, p: nat): State
    requires ProcOf(s, p).Idle?
  {
    Next(Next(s, Open(p)), Lock(p))
  }

  /** Unlock and unlink with nothing in between. */
  function ReleaseAll(s: State, p: nat): State
    requires ProcOf(s, p).Holding?
  {
    Next(Next(s, Unlock(p)), Unlink(p))
  }

  // ---------------------------------------------------------------- every interleaving

  /** A run of enabled steps. */
  ghost predicate Possible(s: State, steps: seq<Step>)
    decreases |steps|
  {
    steps == [] || (Enabled(s, steps[0]) && Possible(Next(s, steps[0]), steps[1..]))
  }

  function Run(s: State, steps: seq<Step>): State
    requires Possible(s, steps)
    decreases |steps|
  {
    if steps == [] then s else Run(Next(s, steps[0]), steps[1..])
  }

  /** A process holds an inode exactly when the inode's lock is its own. */
  ghost predicate Inv(s: State) {
    && (forall p :: ProcOf(s, p).Holding? ==> ProcOf(s, p).inode in s.locks && s.locks[ProcOf(s, p).inode] == p)
    && (forall i :: i in s.locks ==> ProcOf(s, s.locks[i]) == Holding(i))
    && (forall p :: ProcOf(s, p).Holding? || ProcOf(s, p).Opened? ==> ProcOf(s, p).inode < s.next)
    && (s.path.Some? ==> s.path.value < s.next)
  }

  lemma StepKeepsInv(s: State, step: Step)
    requires Inv(s) && Enabled(s, step)
    ensures Inv(Next(s, step))
  {
    var t := Next(s, step);
    assert forall p :: p != step.pid ==> ProcOf(t, p) == ProcOf(s, p);
  }

  /** However steps of any number of processes interleave, no two processes hold the same inode. */
  lemma {:induction false} OneHolderPerInode(s: State, steps: seq<Step>, p: nat, q: nat)
    requires Inv(s) && Possible(s, steps)
    ensures var t := Run(s, steps);
            Inv(t) && (ProcOf(t, p).Holding? && ProcOf(t, p) == ProcOf(t, q) ==> p == q)
    decreases |steps|
  {
    if steps != [] {
      StepKeepsInv(s, steps[0]);
      OneHolderPerInode(Next(s, steps[0]), steps[1..], p, q);
    }
  }

  // ---------------------------------------------------------------- one daemon per path

  /** Whoever holds a lock holds it on the file the path names. */
  ghost predicate AtPath(s: State) {
    forall p :: ProcOf(s, p).Holding? ==> s.path == Some(ProcOf(s, p).inode)
  }

  /** A lock is only won on the file still at the path, and only an unlocked file is removed from the path. */
  predicate Clean(s: State, step: Step)
    requires Enabled(s, step)
  {
    match step
    case Lock(p) => ProcOf(s, p).inode in s.locks || s.path == Some(ProcOf(s, p).inode)
    case Unlink(_) => s.path.None? || s.path.value !in s.locks
    case _ => true
  }

  ghost predicate CleanRun(s: State, steps: seq<Step>)
    requires Possible(s, steps)
    decreases |steps|
  {
    steps == [] || (Clean(s, steps[0]) && CleanRun(Next(s, steps[0]), steps[1..]))
  }

  ghost predicate AlwaysAtPath(s: State, steps: seq<Step>)
    requires Possible(s, steps)
    decreases |steps|
  {
    AtPath(s) && (steps == [] || AlwaysAtPath(Next(s, steps[0]), steps[1..]))
  }

  /** From a good state a step keeps every holder at the path if and only if it is clean. */
  lemma StepExact(s: State, step: Step)
    requires Inv(s) && AtPath(s) && Enabled(s, step)
    ensures AtPath(Next(s, step)) <==> Clean(s, step)
  {
    var t := Next(s, step);
    assert forall p :: p != step.pid ==> ProcOf(t, p) == ProcOf(s, p);
    if step.Lock? && !Clean(s, step) {
      assert ProcOf(t, step.pid).Holding?;
    }
    if step.Unlink? && !Clean(s, step) {
      assert ProcOf(t, s.locks[s.path.value]).Holding?;
    }
  }

  /** In a run every holder is at the path all along if and only if every step is clean. */
  lemma {:induction false} PathExact(s: State, steps: seq<Step>)
    requires Inv(s) && AtPath(s) && Possible(s, steps)
    ensures AlwaysAtPath(s, steps) <==> CleanRun(s, steps)
    decreases |steps|
  {
    if steps != [] {
      StepExact(s, steps[0]);
      StepKeepsInv(s, steps[0]);
      if Clean(s, steps[0]) {
        PathExact(Next(s, steps[0]), steps[1..]);
      }
    }
  }

  /** Two processes at the path cannot both hold it. */
  lemma AtPathIsExclusive(s: State, p: nat, q: nat)
    requires Inv(s) && AtPath(s) && ProcOf(s, p).Holding? && ProcOf(s, q).Holding?
    ensures p == q
  {
  }

  // ---------------------------------------------------------------- uninterrupted calls

  /** Calls no other process interferes with. A process may die between its calls and in the middle of one: with the file
      open and not locked, or unlocked and not unlinked. */
  datatype Call = Acquire(pid: nat) | Release(pid: nat) | Die(pid: nat) | DieAcquiring(pid: nat) | DieReleasing(pid: nat)

  /** The steps a call takes. */
  function StepsOf(c: Call): seq<Step> {
    match c
    case Acquire(p) => [Open(p), Lock(p)]
    case Release(p) => [Unlock(p), Unlink(p)]
    case Die(p) => [Crash(p)]
    case DieAcquiring(p) => [Open(p), Crash(p)]
    case DieReleasing(p) => [Unlock(p), Crash(p)]
  }

  predicate Callable(s: State, c: Call) {
    Enabled(s, StepsOf(c)[0])
  }

  function Called(s: State, c: Call): State
    requires Callable(s, c)
  {
    var steps := StepsOf(c);
    var mid := Next(s, steps[0]);
    if |steps| == 1 then mid else Next(mid, steps[1])
  }

  ghost predicate Calls(s: State, calls: seq<Call>)
    decreases |calls|
  {
    calls == [] || (Callable(s, calls[0]) && Calls(Called(s, calls[0]), calls[1..]))
  }

  function RunCalls(s: State, calls: seq<Call>): State
    requires Calls(s, calls)
    decreases |calls|
  {
    if calls == [] then s else RunCalls(Called(s, calls[0]), calls[1..])
  }

  lemma CallKeepsPath(s: State, c: Call)
    requires Inv(s) && AtPath(s) && Callable(s, c)
    ensures Inv(Called(s, c)) && AtPath(Called(s, c))
  {
    var steps := StepsOf(c);
    var mid := Next(s, steps[0]);
    StepKeepsInv(s, steps[0]);
    StepExact(s, steps[0]);
    if !c.Die? {
      var second := steps[1];
      assert Clean(mid, second) by {
        if c.Release? {
          ReleaseFreesPath(s, c.pid);
        }
      }
      StepKeepsInv(mid, second);
      StepExact(mid, second);
    }
  }

  lemma ReleaseFreesPath(s: State, p: nat)
    requires Inv(s) && AtPath(s) && ProcOf(s, p).Holding?
    ensures var mid := Next(s, Unlock(p)); mid.path == Some(ProcOf(s, p).inode) && ProcOf(s, p).inode !in mid.locks
  {
  }

  /** When no call is interfered with by another process, at most one process holds a lock, and it is on the path's file. */
  lemma {:induction false} WholeCallsExclude(s: State, calls: seq<Call>, p: nat, q: nat)
    requires Inv(s) && AtPath(s) && Calls(s, calls)
    ensures var t := RunCalls(s, calls);
            AtPath(t) && (ProcOf(t, p).Holding? && ProcOf(t, q).Holding? ==> p == q)
    decreases |calls|
  {
    if calls != [] {
      CallKeepsPath(s, calls[0]);
      WholeCallsExclude(Called(s, calls[0]), calls[1..], p, q);
    } else if ProcOf(s, p).Holding? && ProcOf(s, q).Holding? {
      AtPathIsExclusive(s, p, q);
    }
  }

  lemma InitiallyGood()
    ensures Inv(INITIAL) && AtPath(INITIAL)
  {
  }

  /** From the start, with no call interrupted, there is one daemon at most. */
  lemma OneDaemon(calls: seq<Call>, p: nat, q: nat)
    requires Calls(INITIAL, calls)
    ensures var t := RunCalls(INITIAL, calls);
            AtPath(t) && (ProcOf(t, p).Holding? && ProcOf(t, q).Holding? ==> p == q)
  {
    InitiallyGood();
    WholeCallsExclude(INITIAL, calls, p, q);
  }

  /** From the start, whatever interleaves: no two processes on one file, and every holder on the path's file all along
      if and only if every step is clean. */
  lemma FromTheStart(steps: seq<Step>, p: nat, q: nat)
    requires Possible(INITIAL, steps)
    ensures var t := Run(INITIAL, steps);
            ProcOf(t, p).Holding? && ProcOf(t, p) == ProcOf(t, q) ==> p == q
    ensures AlwaysAtPath(INITIAL, steps) <==> CleanRun(INITIAL, steps)
  {
    InitiallyGood();
    OneHolderPerInode(INITIAL, steps, p, q);
    PathExact(INITIAL, steps);
  }

  /** No two processes hold a lock. */
  ghost predicate Exclusive(s: State) {
    forall p, q :: ProcOf(s, p).Holding? && ProcOf(s, q).Holding? ==> p == q
  }

  /** Being on the path's file is all that keeps a second daemon out: every holder is there if and only if no process
      that tries to acquire, undisturbed, ends up holding a lock beside another. */
  lemma PathIsExclusion(s: State)
    requires Inv(s)
    ensures AtPath(s) <==> forall q :: ProcOf(s, q).Idle? ==> Exclusive(AcquireAll(s, q))
  {
    if AtPath(s) {
      forall q | ProcOf(s, q).Idle? ensures Exclusive(AcquireAll(s, q)) {
        CallKeepsPath(s, Acquire(q));
        assert Called(s, Acquire(q)) == AcquireAll(s, q);
      }
    } else {
      var p :| ProcOf(s, p).Holding? && s.path != Some(ProcOf(s, p).inode);
      var q := Newcomer(s.procs.Keys);
      assert ProcOf(s, q).Idle?;
      OffPathAdmits(s, p, q);
    }
  }

  /** A holder that is not on the path's file does not keep a newcomer out: it gets in, unless somebody on the path does. */
  lemma OffPathAdmits(s: State, p: nat, q: nat)
    requires Inv(s) && ProcOf(s, p).Holding? && s.path != Some(ProcOf(s, p).inode) && ProcOf(s, q).Idle?
    ensures var t := AcquireAll(s, q);
            && ProcOf(t, p) == ProcOf(s, p)
            && (ProcOf(t, q).Holding? <==> s.path.None? || s.path.value !in s.locks)
            && !Exclusive(t)
  {
    var t := AcquireAll(s, q);
    assert p != q;
    assert ProcOf(t, p) == ProcOf(s, p);
    if s.path.Some? && s.path.value in s.locks {
      var r := s.locks[s.path.value];
      assert ProcOf(s, r) == Holding(s.path.value);
      assert ProcOf(t, r) == ProcOf(s, r);
    }
  }

  lemma {:induction false} Newcomer(pids: set<nat>) returns (q: nat)
    ensures forall p :: p in pids ==> p < q
    decreases pids
  {
    if pids == {} {
      q := 0;
    } else {
      var p: nat :| p in pids;
      var above := Newcomer(pids - {p});
      q := if above > p then above else p + 1;
      assert forall x :: x in pids ==> x == p || x in pids - {p};
    }
  }

  /** If only releases may be interrupted, two daemons can run: a waiter slips in between unlock and unlink, the
      unlink then removes the file it has locked, and a third process makes a new one. */
  lemma InterruptedReleaseFails() returns (t: State)
    ensures ProcOf(t, 1).Holding? && ProcOf(t, 2).Holding?
    ensures var steps := [Open(0), Lock(0)] + ([Unlock(0), Open(1)] + ([Lock(1), Unlink(0)] + ([Open(2), Lock(2)] + [])));
            Possible(INITIAL, steps) && t == Run(INITIAL, steps)
  {
    var a := Next(Next(INITIAL, Open(0)), Lock(0));
    var b := Next(Next(a, Unlock(0)), Open(1));
    var c := Next(Next(b, Lock(1)), Unlink(0));
    t := Next(Next(c, Open(2)), Lock(2));
    Unfold2(c, Open(2), Lock(2), []);
    Unfold2(b, Lock(1), Unlink(0), [Open(2), Lock(2)] + []);
    Unfold2(a, Unlock(0), Open(1), [Lock(1), Unlink(0)] + ([Open(2), Lock(2)] + []));
    Unfold2(INITIAL, Open(0), Lock(0), [Unlock(0), Open(1)] + ([Lock(1), Unlink(0)] + ([Open(2), Lock(2)] + [])));
  }

  /** If only acquires may be interrupted, two daemons can run as well: a waiter opens the file before a release
      and locks it after, when the path already names nothing and the next process makes a new one. */
  lemma InterruptedAcquireFails() returns (t: State)
    ensures ProcOf(t, 1).Holding? && ProcOf(t, 2).Holding?
    ensures var steps := [Open(0), Lock(0)] + ([Open(1), Unlock(0)] + ([Unlink(0), Lock(1)] + ([Open(2), Lock(2)] + [])));
            Possible(INITIAL, steps) && t == Run(INITIAL, steps)
  {
    var a := Next(Next(INITIAL, Open(0)), Lock(0));
    var b := Next(Next(a, Open(1)), Unlock(0));
    var c := Next(Next(b, Unlink(0)), Lock(1));
    t := Next(Next(c, Open(2)), Lock(2));
    Unfold2(c, Open(2), Lock(2), []);
    Unfold2(b, Unlink(0), Lock(1), [Open(2), Lock(2)] + []);
    Unfold2(a, Open(1), Unlock(0), [Unlink(0), Lock(1)] + ([Open(2), Lock(2)] + []));
    Unfold2(INITIAL, Open(0), Lock(0), [Open(1), Unlock(0)] + ([Unlink(0), Lock(1)] + ([Open(2), Lock(2)] + [])));
  }

  lemma Unfold2(s: State, a: Step, b: Step, rest: seq<Step>)
    requires Enabled(s, a) && Enabled(Next(s, a), b)
    ensures Possible(s, [a, b] + rest) <==> Possible(Next(Next(s, a), b), rest)
    ensures Possible(s, [a, b] + rest) ==> Run(s, [a, b] + rest) == Run(Next(Next(s, a), b), rest)
  {
    assert ([a, b] + rest)[1..] == [b] + rest && ([b] + rest)[1..] == rest;
  }
}
