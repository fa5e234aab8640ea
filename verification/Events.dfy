/** Filesystem events and how a drained batch of them is coalesced. */
module Events {
  import opened Prelude

  datatype Kind = Create | Modify | Delete | Rename

  /** `oldPath` is the source of a RENAME and absent otherwise. */
  datatype Event = Event(kind: Kind, path: string, oldPath: Option<string>)

  /** The only events that are ever queued: no RENAME, no old path. */
  predicate Raw(e: Event) { !e.kind.Rename? && e.oldPath.None? }

  ghost predicate AllRaw(es: seq<Event>) {
    forall i :: 0 <= i < |es| ==> Raw(es[i])
  }

  // ---------------------------------------------------------------- phase 1: last event per path

  ghost predicate HasPath(es: seq<Event>, p: string) {
    exists i :: 0 <= i < |es| && es[i].path == p
  }

  /** `order`: the paths in order of first appearance. */
  function Order(es: seq<Event>): (r: seq<string>)
    ensures Distinct(r)
    ensures forall p :: p in r <==> HasPath(es, p)
  {
    if es == [] then []
    else
      var k := |es| - 1;
      var before := Order(es[..k]);
      assert forall p :: HasPath(es, p) <==> HasPath(es[..k], p) || es[k].path == p by {
        forall p | HasPath(es[..k], p) ensures HasPath(es, p) {
          var i :| 0 <= i < k && es[..k][i].path == p;
          assert es[i].path == p;
        }
        forall p | HasPath(es, p) && es[k].path != p ensures HasPath(es[..k], p) {
          var i :| 0 <= i < |es| && es[i].path == p;
          assert es[..k][i].path == p;
        }
      }
      if es[k].path in before then before else before + [es[k].path]
  }

  /** The event that wins for a path: the last one. */
  function LastFor(es: seq<Event>, p: string): (r: Option<Event>)
    ensures r.Some? <==> p in Order(es)
    ensures r.Some? ==> r.value in es && r.value.path == p
  {
    if es == [] then None
    else
      var k := |es| - 1;
      if es[k].path == p then Some(es[k])
      else LastFor(es[..k], p)
  }

  // ---------------------------------------------------------------- phase 2: atomic saves

  /** Index of the first event of this path and kind. */
  function FirstIndex(es: seq<Event>, p: string, kind: Kind): (r: Option<nat>)
    ensures r.Some? ==> r.value < |es| && es[r.value].path == p && es[r.value].kind == kind
    ensures r.Some? ==> forall i :: 0 <= i < r.value ==> !(es[i].path == p && es[i].kind == kind)
    ensures r.None? ==> forall i :: 0 <= i < |es| ==> !(es[i].path == p && es[i].kind == kind)
  {
    if es == [] then None
    else
      var k := |es| - 1;
      var before := FirstIndex(es[..k], p, kind);
      if before.Some? then before
      else if es[k].path == p && es[k].kind == kind then Some(k)
      else None
  }

  predicate Before(a: Option<nat>, b: Option<nat>) { a.Some? && b.Some? && a.value < b.value }

  /** What is left of a path after two phases: a CREATE whose first DELETE came first is a MODIFY. */
  function Surviving(es: seq<Event>, p: string): (r: Event)
    requires p in Order(es)
    ensures r.path == p
    ensures r.kind.Delete? <==> LastFor(es, p).value.kind.Delete?
    ensures AllRaw(es) ==> Raw(r)
  {
    var last := LastFor(es, p).value;
    if last.kind.Create? && Before(FirstIndex(es, p, Delete), FirstIndex(es, p, Create))
    then Event(Modify, p, None)
    else last
  }

  // ---------------------------------------------------------------- phase 3: one DELETE + one CREATE

  /** The paths among `order` whose surviving event has this kind, in order. */
  function OfKind(es: seq<Event>, order: seq<string>, kind: Kind): (r: seq<string>)
    requires forall p :: p in order ==> p in Order(es)
    ensures forall p :: p in r <==> p in order && Surviving(es, p).kind == kind
  {
    if order == [] then []
    else
      var k := |order| - 1;
      var before := OfKind(es, order[..k], kind);
      assert forall p :: p in order <==> p in order[..k] || p == order[k];
      if Surviving(es, order[k]).kind == kind then before + [order[k]] else before
  }

  /** The (source, destination) of the RENAME a batch is folded into, if it is. */
  function RenamePair(es: seq<Event>): (r: Option<(string, string)>)
    ensures r.Some? ==>
              && r.value.0 != r.value.1 && r.value.0 in Order(es) && r.value.1 in Order(es)
              && Surviving(es, r.value.0).kind == Delete && Surviving(es, r.value.1).kind == Create
  {
    var deletes, creates := OfKind(es, Order(es), Delete), OfKind(es, Order(es), Create);
    if |deletes| == 1 && |creates| == 1 then
      assert deletes[0] in deletes && creates[0] in creates;
      Some((deletes[0], creates[0]))
    else None
  }

  /** What a path contributes to the coalesced batch. A rename source contributes nothing. */
  function EventFor(es: seq<Event>, p: string): Option<Event>
    requires p in Order(es)
  {
    match RenamePair(es)
    case Some((source, destination)) =>
      if p == source then None
      else if p == destination then Some(Event(Rename, destination, Some(source)))
      else Some(Surviving(es, p))
    case None => Some(Surviving(es, p))
  }

  function Emit(es: seq<Event>, order: seq<string>): seq<Event>
    requires forall p :: p in order ==> p in Order(es)
  {
    if order == [] then []
    else
      var k := |order| - 1;
      Emit(es, order[..k]) + match EventFor(es, order[k]) case Some(e) => [e] case None => []
  }

  /** The coalesced batch. */
  function Coalesced(es: seq<Event>): seq<Event> { Emit(es, Order(es)) }

  /** `_apply_events` runs the updates first and everything else after. */
  function Updates(es: seq<Event>): seq<Event> {
    if es == [] then []
    else
      var k := |es| - 1;
      Updates(es[..k]) + if es[k].kind in {Create, Modify} then [es[k]] else []
  }

  function Tail(es: seq<Event>): seq<Event> {
    if es == [] then []
    else
      var k := |es| - 1;
      Tail(es[..k]) + if es[k].kind in {Create, Modify} then [] else [es[k]]
  }

  function Dispatched(es: seq<Event>): seq<Event> { Updates(es) + Tail(es) }

  // ---------------------------------------------------------------- the method

  /** Phase 1 of `_coalesce_events`. */
  method LastPerPath(events: seq<Event>) returns (perPath: map<string, Event>, order: seq<string>)
    ensures order == Order(events) && perPath.Keys == set p | p in order
    ensures forall p :: p in order ==> Some(perPath[p]) == LastFor(events, p)
  {
    perPath, order := map[], [];
    for i := 0 to |events|
      invariant order == Order(events[..i]) && perPath.Keys == set p | p in order
      invariant forall p :: p in order ==> Some(perPath[p]) == LastFor(events[..i], p)
    {
      assert events[..i + 1][..i] == events[..i];
      var key := events[i].path;
      if key !in perPath {
        order := order + [key];
      }
      perPath := perPath[key := events[i]];
    }
    assert events[..|events|] == events;
  }

  ghost predicate Indexes(firstIndex: map<(string, Kind), nat>, es: seq<Event>) {
    && (forall p, k :: (p, k) in firstIndex <==> FirstIndex(es, p, k).Some?)
    && (forall p, k :: (p, k) in firstIndex ==> Some(firstIndex[(p, k)]) == FirstIndex(es, p, k))
  }

  method FirstIndices(events: seq<Event>) returns (firstIndex: map<(string, Kind), nat>)
    ensures Indexes(firstIndex, events)
  {
    firstIndex := map[];
    for i := 0 to |events|
      invariant Indexes(firstIndex, events[..i])
    {
      assert events[..i + 1][..i] == events[..i];
      if (events[i].path, events[i].kind) !in firstIndex {
        firstIndex := firstIndex[(events[i].path, events[i].kind) := i];
      }
    }
    assert events[..|events|] == events;
  }

  /** Phase 2: a DELETE before a CREATE of the same path is an atomic save. */
  method UpgradeAtomicSaves(events: seq<Event>, order: seq<string>, lastPerPath: map<string, Event>)
    returns (perPath: map<string, Event>)
    requires order == Order(events) && lastPerPath.Keys == set p | p in order
    requires forall p :: p in order ==> Some(lastPerPath[p]) == LastFor(events, p)
    ensures perPath.Keys == set p | p in order
    ensures forall p :: p in order ==> perPath[p] == Surviving(events, p)
  {
    hide LastFor, FirstIndex, Order, Surviving;
    perPath := lastPerPath;
    var firstIndex := FirstIndices(events);
    for i := 0 to |order|
      invariant perPath.Keys == set p | p in order
      invariant forall j :: 0 <= j < i ==> perPath[order[j]] == Surviving(events, order[j])
      invariant forall j :: i <= j < |order| ==> perPath[order[j]] == lastPerPath[order[j]]
    {
      var path := order[i];
      UpgradeIs(events, path, lastPerPath[path], firstIndex);
      var del, cre := (path, Delete), (path, Create);
      if perPath[path].kind == Create && del in firstIndex && cre in firstIndex && firstIndex[del] < firstIndex[cre] {
        perPath := perPath[path := Event(Modify, path, None)];
      }
    }
  }

  lemma UpgradeIs(es: seq<Event>, path: string, last: Event, firstIndex: map<(string, Kind), nat>)
    requires path in Order(es) && LastFor(es, path) == Some(last) && Indexes(firstIndex, es)
    ensures var del, cre := (path, Delete), (path, Create);
            Surviving(es, path) ==
            if last.kind == Create && del in firstIndex && cre in firstIndex && firstIndex[del] < firstIndex[cre]
            then Event(Modify, path, None) else last
  {
    hide LastFor, FirstIndex, Order;
  }

  /** Phase 3: exactly one DELETE and one CREATE left over make a RENAME. */
  method FoldRename(events: seq<Event>, order: seq<string>, surviving: map<string, Event>)
    returns (perPath: map<string, Event>)
    requires order == Order(events) && surviving.Keys == set p | p in order
    requires forall p :: p in order ==> surviving[p] == Surviving(events, p)
    ensures forall p :: p in order ==> EventFor(events, p) == if p in perPath then Some(perPath[p]) else None
  {
    hide Surviving, Order, LastFor;
    var deletes, creates := [], [];
    for i := 0 to |order|
      invariant deletes == OfKind(events, order[..i], Delete) && creates == OfKind(events, order[..i], Create)
    {
      assert order[..i + 1][..i] == order[..i];
      if surviving[order[i]].kind == Delete { deletes := deletes + [order[i]]; }
      if surviving[order[i]].kind == Create { creates := creates + [order[i]]; }
    }
    assert order[..|order|] == order;
    perPath := surviving;
    if deletes != [] && creates != [] {
      assert deletes[0] in deletes && creates[0] in creates;
    }
    if |deletes| == 1 && |creates| == 1 && deletes[0] != creates[0] {
      var source, destination := deletes[0], creates[0];
      perPath := perPath[destination := Event(Rename, destination, Some(source))] - {source};
    }
  }

  /** `_coalesce_events`. */
  method CoalesceEvents(events: seq<Event>) returns (out: seq<Event>)
    ensures out == Coalesced(events)
  {
    var perPath, order := LastPerPath(events);
    perPath := UpgradeAtomicSaves(events, order, perPath);
    perPath := FoldRename(events, order, perPath);
    out := [];
    for i := 0 to |order|
      invariant out == Emit(events, order[..i])
    {
      assert order[..i + 1][..i] == order[..i];
      if order[i] in perPath {
        out := out + [perPath[order[i]]];
      }
    }
    assert order[..|order|] == order;
  }
}
