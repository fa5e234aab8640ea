/** What a search is served at rest: the rebuilt index, one-to-one rows, and every line citable. */
module Rebuild {
  import opened Prelude
  import opened Records
  import opened Events
  import opened EventProofs
  import opened PathIndex
  import opened Watch
  import opened WatchProofs
  import opened OrderlyRuns
  import IndexModel
  import opened IndexProofs

  // ---------------------------------------------------------------- no more than a rebuild

  /** The path is recorded as a rebuild would record it: if it is there and accepted, with its hash, and not otherwise. */
  predicate Rebuilt(cfg: Config, s: State, p: string) {
    HashAt(s.index, p) == if Indexable(cfg.env, s.disk, p) then Some(DiskHash(cfg.env, s.disk, p)) else None
  }

  /** A file on disk that the filter chain rejects has no record. */
  predicate Accepted(cfg: Config, s: State, p: string) {
    p in s.disk && p in s.index ==> Indexable(cfg.env, s.disk, p)
  }

  /** What the watcher keeps in sync is what a rebuild would give, but for records of files rejected since. */
  lemma RebuiltExact(cfg: Config, s: State, p: string)
    ensures Rebuilt(cfg, s, p) <==> InSync(cfg, s, p) && Accepted(cfg, s, p)
  {
  }

  /** The step writes content the filter chain rejects over a recorded file. */
  predicate RejectsRecorded(cfg: Config, s: State, step: Step, p: string) {
    step.Write? && step.path == p && p in s.index && !cfg.env.shouldIndex(p, step.file.content)
  }

  /** Such a write is the one kind of step that leaves a record of a rejected file. */
  lemma AcceptedStepExact(cfg: Config, s: State, step: Step, p: string)
    requires Accepted(cfg, s, p) && Possible(cfg, s, step)
    ensures Accepted(cfg, Next(cfg, s, step), p) <==> !RejectsRecorded(cfg, s, step, p)
  {
    if step.ApplyNext? && s.worker.events != [] {
      hide Next;
      ApplyAccepts(cfg, s, s.worker.events[0], p);
      IndexNext(cfg, s);
    } else {
      hide ApplyEvent, Coalesced, Dispatched, Drifted;
    }
  }

  lemma IndexNext(cfg: Config, s: State)
    requires s.worker.Applying? && s.worker.events != []
    ensures var s' := Next(cfg, s, ApplyNext);
            s'.disk == s.disk && s'.index == ApplyEvent(cfg.env, s.disk, s.index, s.worker.events[0])
  {
    hide ApplyEvent;
  }

  lemma ApplyAccepts(cfg: Config, s: State, e: Event, p: string)
    requires Accepted(cfg, s, p)
    ensures Accepted(cfg, s.(index := ApplyEvent(cfg.env, s.disk, s.index, e)), p)
  {
  }

  /** And the record stays until the file is removed, or written with content that is accepted, or the watcher applies an
      event that says the path is gone. */
  lemma StaleStepExact(cfg: Config, s: State, step: Step, p: string)
    requires QueueInv(cfg, s) && !Accepted(cfg, s, p) && Possible(cfg, s, step)
    ensures Accepted(cfg, Next(cfg, s, step), p)
            <==> || (step.Remove? && step.path == p)
                 || (step.Write? && step.path == p && cfg.env.shouldIndex(p, step.file.content))
                 || (step.ApplyNext? && s.worker.events != [] && Says(s.worker.events[0], p) == Some(false))
  {
    if step.ApplyNext? && s.worker.events != [] {
      assert WellShaped(InFlight(s)[0]);
      hide Next, QueueInv;
      ApplyStale(cfg, s, s.worker.events[0], p);
      IndexNext(cfg, s);
    } else {
      hide ApplyEvent, Coalesced, Dispatched, Drifted, QueueInv;
    }
  }

  lemma ApplyStale(cfg: Config, s: State, e: Event, p: string)
    requires !Accepted(cfg, s, p) && WellShaped(e)
    ensures Accepted(cfg, s.(index := ApplyEvent(cfg.env, s.disk, s.index, e)), p) <==> Says(e, p) == Some(false)
  {
  }

  /** All along a run, rejected files have no record if and only if none is written over a recorded one. */
  lemma {:induction false} AcceptedRunExact(cfg: Config, states: seq<State>, steps: seq<Step>, n: nat, p: string)
    requires Run(cfg, states, steps) && Accepted(cfg, states[0], p) && n <= |steps|
    ensures (forall i :: 0 <= i <= n ==> Accepted(cfg, states[i], p))
            <==> forall i :: 0 <= i < n ==> !RejectsRecorded(cfg, states[i], steps[i], p)
    decreases n
  {
    hide Accepted, RejectsRecorded, Next, Possible;
    if n > 0 {
      AcceptedRunExact(cfg, states, steps, n - 1, p);
      var soFar := forall i :: 0 <= i <= n - 1 ==> Accepted(cfg, states[i], p);
      if soFar {
        assert Accepted(cfg, states[n - 1], p);
        AcceptedStepExact(cfg, states[n - 1], steps[n - 1], p);
        assert (forall i :: 0 <= i <= n ==> Accepted(cfg, states[i], p)) <==> Accepted(cfg, states[n], p);
      }
    }
  }

  /** At rest after an orderly run the index has of a path just what a rebuild would give, if and only if no record of a
      rejected file is left; and there is none if no rejected content was written over a recorded file. */
  lemma RebuiltInOrder(cfg: Config, states: seq<State>, steps: seq<Step>, p: string)
    requires Run(cfg, states, steps) && Init(cfg, states[0], p) && Walks(cfg, p)
    requires OrderlyRun(cfg, states, steps, |steps|, p) && Quiescent(states[|steps|])
    ensures Rebuilt(cfg, states[|steps|], p) <==> Accepted(cfg, states[|steps|], p)
    ensures Accepted(cfg, states[0], p) && (forall i :: 0 <= i < |steps| ==> !RejectsRecorded(cfg, states[i], steps[i], p))
            ==> Rebuilt(cfg, states[|steps|], p)
  {
    hide Rebuilt, Accepted, InSync, RejectsRecorded, OrderlyRun, Init, Quiescent;
    NothingLostInOrder(cfg, states, steps, |steps|, p);
    RebuiltExact(cfg, states[|steps|], p);
    if Accepted(cfg, states[0], p) {
      AcceptedRunExact(cfg, states, steps, |steps|, p);
    }
  }

  // ---------------------------------------------------------------- rows

  /** The step applies no operation that carries over a repeated hash. */
  ghost predicate StepCarriesOnce(cfg: Config, project: string, s: State, step: Step, full: IndexModel.Index, rows: seq<nat>)
    requires cfg.env.window.Valid() && Possible(cfg, s, step)
  {
    step.ApplyNext? && s.worker.events != [] ==>
      CarriesOnce(cfg.env, full, OpFor(project, s.disk, s.worker.events[0], rows))
  }

  lemma JointStepExact(cfg: Config, project: string, s: State, step: Step, before: IndexModel.Index,
                       after: IndexModel.Index, rows: seq<nat>)
    requires CollisionFree(cfg.env) && Possible(cfg, s, step) && JointStep(cfg, project, s, step, before, after, rows)
    requires Sound(cfg.env, before) && Exact(before) && cfg.env.window.Valid()
    ensures Exact(after) <==> StepCarriesOnce(cfg, project, s, step, before, rows)
  {
    hide Sound, Exact, CarriesOnce, IndexModel.Apply, IndexModel.Enabled, OpFor;
    if step.ApplyNext? && s.worker.events != [] {
      ApplyExactIff(cfg.env, before, OpFor(project, s.disk, s.worker.events[0], rows));
    }
  }

  /** Along a joint run of watcher and indexer, stored chunks are one-to-one with the live rows in every state if and only
      if no event that is applied carries over a hash that is repeated. */
  lemma {:induction false} JointRunExact(cfg: Config, project: string, states: seq<State>, steps: seq<Step>,
                                         full: seq<IndexModel.Index>, rows: seq<seq<nat>>, n: nat)
    requires CollisionFree(cfg.env) && JointRun(cfg, project, states, steps, full, rows) && n <= |steps|
    requires QueueInv(cfg, states[0]) && Project(full[0], project) == states[0].index && cfg.env.window.Valid()
    requires Sound(cfg.env, full[0]) && Exact(full[0])
    ensures (forall i :: 0 <= i <= n ==> Exact(full[i]))
            <==> forall i :: 0 <= i < n ==> StepCarriesOnce(cfg, project, states[i], steps[i], full[i], rows[i])
    decreases n
  {
    hide Exact, Sound, StepCarriesOnce, JointStep, QueueInv, Project;
    if n > 0 {
      JointRunExact(cfg, project, states, steps, full, rows, n - 1);
      JointRunKeeps(cfg, project, states, steps, full, rows, n - 1);
      var soFar := forall i :: 0 <= i <= n - 1 ==> Exact(full[i]);
      if soFar {
        assert Exact(full[n - 1]);
        assert JointStep(cfg, project, states[n - 1], steps[n - 1], full[n - 1], full[n - 1 + 1], rows[n - 1]);
        JointStepExact(cfg, project, states[n - 1], steps[n - 1], full[n - 1], full[n], rows[n - 1]);
        assert (forall i :: 0 <= i <= n ==> Exact(full[i])) <==> Exact(full[n]);
      }
    }
  }

  // ---------------------------------------------------------------- citations

  /** From disk to citation: at rest after an orderly joint run, looking up any line from the first to the last of an
      accepted file finds a stored chunk with a character on it, and looking up any other line does not. */
  lemma CitableInOrder(cfg: Config, project: string, states: seq<State>, steps: seq<Step>,
                       full: seq<IndexModel.Index>, rows: seq<seq<nat>>, p: string, line: int)
    requires CollisionFree(cfg.env) && JointRun(cfg, project, states, steps, full, rows)
    requires Sound(cfg.env, full[0]) && Project(full[0], project) == states[0].index
    requires Init(cfg, states[0], p) && Walks(cfg, p) && OrderlyRun(cfg, states, steps, |steps|, p)
    requires Quiescent(states[|steps|]) && cfg.env.window.Valid() && cfg.env.window.Gapless()
    requires Indexable(cfg.env, states[|steps|].disk, p) && cfg.env.decode(states[|steps|].disk[p].content) != []
    ensures var text := cfg.env.decode(states[|steps|].disk[p].content);
            var stored := Recs(IndexModel.ChunksAt(full[|steps|], IndexModel.Key(project, p)));
            && stored != []
            && var r := PickChunkForLine(stored, Some(line));
               r.endOffset <= |text| && (HasCharOnLine(text, r, line) <==> 1 <= line <= LastLine(text))
  {
    var s, content := full[|steps|], states[|steps|].disk[p].content;
    hide OrderlyRun, Init, Quiescent, Sound, Project, HasCharOnLine, LastLine, PickChunkForLine;
    ReindexedInOrder(cfg, project, states, steps, full, rows, p);
    StoredRecords(cfg.env, s, IndexModel.Key(project, p), content);
    IndexedLinesAreCitable(cfg.env, cfg.env.decode(content), line);
  }

  lemma StoredRecords(env: Env, s: IndexModel.Index, key: IndexModel.Key, content: Bytes)
    requires env.window.Valid() && Retrieved(s, key) == FromScratch(env, content)
    ensures Recs(IndexModel.ChunksAt(s, key)) == IndexModel.RecordsFor(env, content)
  {
    var cs, rs := IndexModel.ChunksAt(s, key), IndexModel.RecordsFor(env, content);
    assert |cs| == |Retrieved(s, key)| == |FromScratch(env, content)| == |rs|;
    forall i | 0 <= i < |cs| ensures Recs(cs)[i] == rs[i] {
      assert Retrieved(s, key)[i].0 == cs[i].rec && FromScratch(env, content)[i].0 == rs[i];
    }
  }
}
