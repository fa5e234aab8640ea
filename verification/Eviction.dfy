/** Which projects to evict to bring the cache back under its disk budget. */
module Eviction {
  datatype Footprint = Footprint(name: string, lastQuery: real, bytes: int)

  datatype Plan = Plan(targets: seq<string>, bytesToFree: int, preEvictionBytes: int, budgetBytes: int, exceededBy: int)

  /** Least recently asked first; of those asked at the same time the smallest first. */
  predicate Before(a: Footprint, b: Footprint) {
    a.lastQuery < b.lastQuery || (a.lastQuery == b.lastQuery && a.bytes <= b.bytes)
  }

  ghost predicate Sorted(fs: seq<Footprint>) {
    forall i, j :: 0 <= i < j < |fs| ==> Before(fs[i], fs[j])
  }

  // ---------------------------------------------------------------- the sort

  /** A stable sort: `f` goes behind everything it does not precede strictly. */
  function Insert(f: Footprint, fs: seq<Footprint>): (r: seq<Footprint>)
    ensures multiset(r) == multiset(fs) + multiset{f}
  {
    if fs == [] then [f]
    else
      assert fs == [fs[0]] + fs[1..];
      if Before(fs[0], f) then [fs[0]] + Insert(f, fs[1..]) else [f] + fs
  }

  function Sort(fs: seq<Footprint>): (r: seq<Footprint>)
    ensures multiset(r) == multiset(fs)
  {
    if fs == [] then []
    else
      var k := |fs| - 1;
      assert fs == fs[..k] + [fs[k]];
      Insert(fs[k], Sort(fs[..k]))
  }

  lemma {:induction false} InsertSorted(f: Footprint, fs: seq<Footprint>)
    requires Sorted(fs)
    ensures Sorted(Insert(f, fs))
    decreases |fs|
  {
    if fs != [] && Before(fs[0], f) {
      InsertSorted(f, fs[1..]);
      var r := Insert(f, fs[1..]);
      forall j | 0 <= j < |r| ensures Before(fs[0], r[j]) {
        assert r[j] in multiset(r);
        assert r[j] == f || r[j] in fs[1..];
      }
    }
  }

  lemma {:induction false} SortSorts(fs: seq<Footprint>)
    ensures Sorted(Sort(fs))
    decreases |fs|
  {
    if fs != [] {
      SortSorts(fs[..|fs| - 1]);
      InsertSorted(fs[|fs| - 1], Sort(fs[..|fs| - 1]));
    }
  }

  // ---------------------------------------------------------------- the plan

  /** The projects that may be evicted and have something to free, in eviction order. */
  function Evictable(projects: seq<Footprint>, pinned: set<string>): seq<Footprint> {
    Freeing(Sort(Unpinned(projects, pinned)))
  }

  function Unpinned(projects: seq<Footprint>, pinned: set<string>): seq<Footprint> {
    if projects == [] then []
    else Unpinned(projects[..|projects| - 1], pinned)
         + if projects[|projects| - 1].name in pinned then [] else [projects[|projects| - 1]]
  }

  function Freeing(fs: seq<Footprint>): seq<Footprint> {
    if fs == [] then [] else Freeing(fs[..|fs| - 1]) + if fs[|fs| - 1].bytes > 0 then [fs[|fs| - 1]] else []
  }

  function Freed(fs: seq<Footprint>): int {
    if fs == [] then 0 else Freed(fs[..|fs| - 1]) + fs[|fs| - 1].bytes
  }

  function Names(fs: seq<Footprint>): seq<string> {
    if fs == [] then [] else Names(fs[..|fs| - 1]) + [fs[|fs| - 1].name]
  }

  /** The shortest prefix of `order` that covers the overflow, or all of it. */
  ghost predicate Sufficient(order: seq<Footprint>, n: nat, overflow: int) {
    n <= |order| && (Freed(order[..n]) >= overflow || n == |order|)
    && forall k :: 0 <= k < n ==> Freed(order[..k]) < overflow
  }

  ghost predicate Evicts(plan: Plan, order: seq<Footprint>, current: int, budget: int) {
    exists n: nat :: Sufficient(order, n, current - budget)
                     && plan == Plan(Names(order[..n]), Freed(order[..n]), current, budget, current - budget)
  }

  /** Whole bytes; a gigabyte is 1024 to the third. */
  function BudgetBytes(budgetGb: real): (r: int)
    ensures r as real <= budgetGb * 1024.0 * 1024.0 * 1024.0 < (r + 1) as real
  {
    (budgetGb * 1073741824.0).Floor
  }

  method PlanEviction(budgetGb: real, current: nat, projects: seq<Footprint>, pinned: set<string>) returns (plan: Plan)
    ensures budgetGb <= 0.0 ==> plan == Plan([], 0, current, 0, 0)
    ensures budgetGb > 0.0 && current <= BudgetBytes(budgetGb) ==> plan == Plan([], 0, current, BudgetBytes(budgetGb), 0)
    ensures budgetGb > 0.0 && current > BudgetBytes(budgetGb) ==>
              Evicts(plan, Evictable(projects, pinned), current, BudgetBytes(budgetGb))
  {
    hide Evicts, Unpinned, Freeing, Sort;
    if budgetGb <= 0.0 {
      return Plan([], 0, current, 0, 0);
    }
    var budget := BudgetBytes(budgetGb);
    if current <= budget {
      return Plan([], 0, current, budget, 0);
    }
    var footprints := FootprintsOf(projects, pinned);
    plan := ChooseTargets(Sort(footprints), current, budget);
  }

  method FootprintsOf(projects: seq<Footprint>, pinned: set<string>) returns (footprints: seq<Footprint>)
    ensures footprints == Unpinned(projects, pinned)
  {
    footprints := [];
    for i := 0 to |projects|
      invariant footprints == Unpinned(projects[..i], pinned)
    {
      assert projects[..i + 1][..i] == projects[..i];
      if projects[i].name !in pinned {
        footprints := footprints + [projects[i]];
      }
    }
    assert projects[..|projects|] == projects;
  }

  /** The loop over the sorted footprints: stop once enough is freed, skip what frees nothing. */
  method ChooseTargets(footprints: seq<Footprint>, current: int, budget: int) returns (plan: Plan)
    ensures Evicts(plan, Freeing(footprints), current, budget)
  {
    var overflow := current - budget;
    hide Freeing, Names, Freed, Evicts;
    var targets, freed := [], 0;
    ghost var n: nat := 0;
    ghost var order := Freeing(footprints);
    assert footprints[..0] == [] && order[..0] == [];
    StepSums(order, 0);
    for i := 0 to |footprints|
      invariant Reached(order, footprints, i, n)
      invariant targets == Names(order[..n]) && freed == Freed(order[..n])
      invariant forall k :: 0 <= k < n ==> Freed(order[..k]) < overflow
    {
      if freed >= overflow {
        plan := Plan(targets, freed, current, budget, overflow);
        ChosenEvicts(plan, order, n, current, budget);
        return;
      }
      ReachNext(footprints, i, n);
      if footprints[i].bytes <= 0 {
        continue;
      }
      StepSums(order, n);
      targets := targets + [footprints[i].name];
      freed := freed + footprints[i].bytes;
      n := n + 1;
    }
    assert footprints[..|footprints|] == footprints;
    plan := Plan(targets, freed, current, budget, overflow);
    ChosenEvicts(plan, order, n, current, budget);
  }

  /** The first `i` footprints hold the first `n` entries of the order. */
  ghost predicate Reached(order: seq<Footprint>, footprints: seq<Footprint>, i: nat, n: nat)
    requires i <= |footprints|
  {
    n <= |order| && Freeing(footprints[..i]) == order[..n]
  }

  lemma ReachNext(footprints: seq<Footprint>, i: nat, n: nat)
    requires i < |footprints| && Reached(Freeing(footprints), footprints, i, n)
    ensures footprints[i].bytes <= 0 ==> Reached(Freeing(footprints), footprints, i + 1, n)
    ensures footprints[i].bytes > 0 ==>
              n < |Freeing(footprints)| && Freeing(footprints)[n] == footprints[i]
              && Reached(Freeing(footprints), footprints, i + 1, n + 1)
  {
    assert footprints[..i + 1][..i] == footprints[..i];
    FreeingPrefix(footprints, i + 1);
  }

  lemma StepSums(order: seq<Footprint>, n: nat)
    ensures Names([]) == [] && Freed([]) == 0 && Freeing([]) == []
    ensures n < |order| ==>
              Names(order[..n + 1]) == Names(order[..n]) + [order[n].name]
              && Freed(order[..n + 1]) == Freed(order[..n]) + order[n].bytes
  {
    if n < |order| {
      assert order[..n + 1][..n] == order[..n];
    }
  }

  lemma ChosenEvicts(plan: Plan, order: seq<Footprint>, n: nat, current: int, budget: int)
    requires Sufficient(order, n, current - budget)
    requires plan == Plan(Names(order[..n]), Freed(order[..n]), current, budget, current - budget)
    ensures Evicts(plan, order, current, budget)
  {
  }

  lemma {:induction false} FreeingPrefix(fs: seq<Footprint>, i: nat)
    requires i <= |fs|
    ensures Freeing(fs[..i]) <= Freeing(fs)
    decreases |fs|
  {
    if i == |fs| {
      assert fs[..i] == fs;
    } else {
      var k := |fs| - 1;
      assert fs[..k][..i] == fs[..i];
      FreeingPrefix(fs[..k], i);
    }
  }

  // ---------------------------------------------------------------- what the order is

  lemma {:induction false} UnpinnedExact(projects: seq<Footprint>, pinned: set<string>, f: Footprint)
    ensures f in Unpinned(projects, pinned) <==> f in projects && f.name !in pinned
    decreases |projects|
  {
    if projects != [] {
      var k := |projects| - 1;
      UnpinnedExact(projects[..k], pinned, f);
      assert projects == projects[..k] + [projects[k]];
    }
  }

  lemma {:induction false} FreeingExact(fs: seq<Footprint>, f: Footprint)
    ensures f in Freeing(fs) <==> f in fs && f.bytes > 0
    decreases |fs|
  {
    if fs != [] {
      var k := |fs| - 1;
      FreeingExact(fs[..k], f);
      assert fs == fs[..k] + [fs[k]];
    }
  }

  lemma {:induction false} FreeingSorted(fs: seq<Footprint>)
    requires Sorted(fs)
    ensures Sorted(Freeing(fs))
    decreases |fs|
  {
    if fs != [] {
      var k := |fs| - 1;
      FreeingSorted(fs[..k]);
      var r := Freeing(fs[..k]);
      forall i | 0 <= i < |r| ensures Before(r[i], fs[k]) {
        FreeingExact(fs[..k], r[i]);
        var j :| 0 <= j < k && fs[..k][j] == r[i];
        assert fs[j] == r[i];
      }
    }
  }

  /** The eviction order holds exactly the unpinned projects with something to free, least recently asked first. */
  lemma EvictableIsLru(projects: seq<Footprint>, pinned: set<string>)
    ensures var order := Evictable(projects, pinned);
            Sorted(order)
            && forall i, j :: 0 <= i < j < |order| ==>
                 order[i].lastQuery < order[j].lastQuery
                 || (order[i].lastQuery == order[j].lastQuery && order[i].bytes <= order[j].bytes)
    ensures forall f :: f in Evictable(projects, pinned) <==> f in projects && f.name !in pinned && f.bytes > 0
  {
    var un := Unpinned(projects, pinned);
    SortSorts(un);
    FreeingSorted(Sort(un));
    forall f ensures f in Evictable(projects, pinned) <==> f in projects && f.name !in pinned && f.bytes > 0 {
      FreeingExact(Sort(un), f);
      assert f in Sort(un) <==> f in multiset(Sort(un));
      assert f in un <==> f in multiset(un);
      UnpinnedExact(projects, pinned, f);
    }
  }

  // ---------------------------------------------------------------- what a plan promises

  /** The first `n` projects of the order are enough or all; without the last they are not; nothing spared
      was asked longer ago than something evicted; and nothing pinned or empty is among them. */
  ghost predicate Lru(order: seq<Footprint>, n: nat, pinned: set<string>, overflow: int) {
    && n <= |order|
    && (Freed(order[..n]) >= overflow || n == |order|)
    && (n > 0 ==> Freed(order[..n - 1]) < overflow)
    && (forall i, j :: 0 <= i < n <= j < |order| ==> Before(order[i], order[j]))
    && (forall i :: 0 <= i < n ==> order[i].name !in pinned && order[i].bytes > 0)
  }

  /** Every plan is of that kind. */
  lemma PlanIsLru(plan: Plan, projects: seq<Footprint>, pinned: set<string>, current: int, budget: int) returns (n: nat)
    requires Evicts(plan, Evictable(projects, pinned), current, budget)
    ensures Lru(Evictable(projects, pinned), n, pinned, current - budget)
    ensures plan == Plan(Names(Evictable(projects, pinned)[..n]), Freed(Evictable(projects, pinned)[..n]), current, budget,
                         current - budget)
  {
    EvictableIsLru(projects, pinned);
    hide Evictable, Names, Freed;
    var order := Evictable(projects, pinned);
    n :| Sufficient(order, n, current - budget)
      && plan == Plan(Names(order[..n]), Freed(order[..n]), current, budget, current - budget);
    assert forall i :: 0 <= i < n ==> order[i] in order;
  }

  /** The shortest sufficient prefix is unique, so a plan is determined by what it is asked. */
  lemma PlanUnique(a: Plan, b: Plan, projects: seq<Footprint>, pinned: set<string>, current: int, budget: int)
    requires Evicts(a, Evictable(projects, pinned), current, budget)
    requires Evicts(b, Evictable(projects, pinned), current, budget)
    ensures a == b
  {
    hide Evictable, Names, Freed;
    var order, overflow := Evictable(projects, pinned), current - budget;
    var m: nat :| Sufficient(order, m, overflow) && a == Plan(Names(order[..m]), Freed(order[..m]), current, budget, overflow);
    var n: nat :| Sufficient(order, n, overflow) && b == Plan(Names(order[..n]), Freed(order[..n]), current, budget, overflow);
    assert m == n;
  }
}
