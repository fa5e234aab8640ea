/** What coalescing keeps of a batch: every path, and the last word on it. */
module EventProofs {
  import opened Prelude
  import opened Events

  /** What an event says about a path: there, gone, or nothing. */
  function Says(e: Event, p: string): Option<bool> {
    if e.kind.Rename? then
      if p == e.path then Some(true) else if e.oldPath == Some(p) then Some(false) else None
    else if p == e.path then Some(!e.kind.Delete?)
    else None
  }

  /** What the last event that mentions a path says about it. */
  function LastSays(es: seq<Event>, p: string): Option<bool> {
    if es == [] then None
    else
      var k := |es| - 1;
      if Says(es[k], p).Some? then Says(es[k], p) else LastSays(es[..k], p)
  }

  /** How many events mention a path. */
  function Mentions(es: seq<Event>, p: string): nat {
    if es == [] then 0
    else
      var k := |es| - 1;
      Mentions(es[..k], p) + if Says(es[k], p).Some? then 1 else 0
  }

  lemma {:induction false} LastSaysConcat(a: seq<Event>, b: seq<Event>, p: string)
    ensures LastSays(a + b, p) == if LastSays(b, p).Some? then LastSays(b, p) else LastSays(a, p)
    decreases |b|
  {
    if b == [] {
      assert a + b == a;
    } else {
      var k := |b| - 1;
      assert (a + b)[..|a + b| - 1] == a + b[..k];
      LastSaysConcat(a, b[..k], p);
    }
  }

  lemma {:induction false} MentionsConcat(a: seq<Event>, b: seq<Event>, p: string)
    ensures Mentions(a + b, p) == Mentions(a, p) + Mentions(b, p)
    decreases |b|
  {
    if b == [] {
      assert a + b == a;
    } else {
      var k := |b| - 1;
      assert (a + b)[..|a + b| - 1] == a + b[..k];
      MentionsConcat(a, b[..k], p);
    }
  }

  lemma MentionsSnoc(es: seq<Event>, e: Event, p: string)
    ensures Mentions(es + [e], p) == Mentions(es, p) + if Says(e, p).Some? then 1 else 0
  {
    assert (es + [e])[..|es|] == es;
  }

  lemma {:induction false} MentionedIffSays(es: seq<Event>, p: string)
    ensures Mentions(es, p) > 0 <==> LastSays(es, p).Some?
    decreases |es|
  {
    if es != [] {
      MentionedIffSays(es[..|es| - 1], p);
    }
  }

  /** Splitting a batch into updates and the rest changes how often nothing is mentioned. */
  lemma {:induction false} DispatchMentions(es: seq<Event>, p: string)
    ensures Mentions(Dispatched(es), p) == Mentions(es, p)
    decreases |es|
  {
    MentionsConcat(Updates(es), Tail(es), p);
    if es != [] {
      var k := |es| - 1;
      DispatchMentions(es[..k], p);
      MentionsConcat(Updates(es[..k]), Tail(es[..k]), p);
      MentionsSnoc(Updates(es[..k]), es[k], p);
      MentionsSnoc(Tail(es[..k]), es[k], p);
      assert Updates(es[..k]) + [] == Updates(es[..k]) && Tail(es[..k]) + [] == Tail(es[..k]);
    }
  }

  lemma {:induction false} DispatchMembers(es: seq<Event>, e: Event)
    ensures e in Dispatched(es) <==> e in es
    decreases |es|
  {
    if es != [] {
      var k := |es| - 1;
      DispatchMembers(es[..k], e);
      assert es == es[..k] + [es[k]];
    }
  }

  /** An event that is mentioned once can be isolated. */
  lemma {:induction false} Isolate(es: seq<Event>, p: string) returns (k: nat)
    requires Mentions(es, p) == 1
    ensures k < |es| && Says(es[k], p).Some?
    ensures Mentions(es[..k], p) == 0 && Mentions(es[k + 1..], p) == 0
    ensures LastSays(es, p) == Says(es[k], p)
    decreases |es|
  {
    var n := |es| - 1;
    if Says(es[n], p).Some? {
      k := n;
      assert es[k + 1..] == [];
    } else {
      k := Isolate(es[..n], p);
      assert es[..n][..k] == es[..k];
      assert es[k + 1..] == es[..n][k + 1..] + [es[n]];
      MentionsSnoc(es[..n][k + 1..], es[n], p);
    }
  }

  // ---------------------------------------------------------------- raw batches

  /** For raw events the last word on a path is the kind of the last event of that path. */
  lemma {:induction false} RawLastWord(es: seq<Event>, p: string)
    requires AllRaw(es)
    ensures LastSays(es, p) == match LastFor(es, p)
                               case None => None
                               case Some(e) => Some(!e.kind.Delete?)
    decreases |es|
  {
    if es != [] {
      RawLastWord(es[..|es| - 1], p);
    }
  }

  // ---------------------------------------------------------------- the coalesced batch

  /** The path under which a path is mentioned after coalescing: a rename source by its destination. */
  function Carrier(es: seq<Event>, p: string): string {
    match RenamePair(es)
    case Some((source, destination)) => if p == source then destination else p
    case None => p
  }

  /** Which paths an emitted event mentions, and what it says of them. */
  lemma EventForSays(es: seq<Event>, q: string, p: string)
    requires AllRaw(es) && q in Order(es)
    ensures EventFor(es, q).Some? && Says(EventFor(es, q).value, p).Some?
            <==> q == Carrier(es, p) && p in Order(es)
    ensures EventFor(es, q).Some? && Says(EventFor(es, q).value, p).Some? ==>
              && LastFor(es, p).Some?
              && Says(EventFor(es, q).value, p).value == !LastFor(es, p).value.kind.Delete?
  {
    hide Order, LastFor, FirstIndex;
  }

  lemma {:induction false} EmitMentions(es: seq<Event>, order: seq<string>, p: string)
    requires AllRaw(es) && Distinct(order) && forall q :: q in order ==> q in Order(es)
    ensures Mentions(Emit(es, order), p) == if p in Order(es) && Carrier(es, p) in order then 1 else 0
    decreases |order|
  {
    hide Order, EventFor, Says;
    if order != [] {
      var k := |order| - 1;
      EmitMentions(es, order[..k], p);
      EventForSays(es, order[k], p);
      assert order == order[..k] + [order[k]];
      var before := Emit(es, order[..k]);
      match EventFor(es, order[k]) {
        case Some(e) =>
          assert Emit(es, order) == before + [e];
          MentionsSnoc(before, e, p);
        case None =>
          assert Emit(es, order) == before;
      }
    }
  }

  lemma {:induction false} EmitMembers(es: seq<Event>, order: seq<string>, e: Event) returns (q: string)
    requires forall q :: q in order ==> q in Order(es)
    requires e in Emit(es, order)
    ensures q in order && EventFor(es, q) == Some(e)
    decreases |order|
  {
    var k := |order| - 1;
    if EventFor(es, order[k]) == Some(e) {
      q := order[k];
    } else {
      q := EmitMembers(es, order[..k], e);
    }
  }

  /** Every path of the batch is mentioned exactly once afterwards, and no other path is. */
  lemma CoalescedMentionsOnce(es: seq<Event>, p: string)
    requires AllRaw(es)
    ensures Mentions(Dispatched(Coalesced(es)), p) == if p in Order(es) then 1 else 0
  {
    EmitMentions(es, Order(es), p);
    DispatchMentions(Coalesced(es), p);
  }

  /** The one event that mentions a path of the batch. */
  lemma CoalescedEventOf(es: seq<Event>, p: string) returns (k: nat)
    requires AllRaw(es) && p in Order(es)
    ensures var out := Dispatched(Coalesced(es));
            && k < |out| && Carrier(es, p) in Order(es)
            && EventFor(es, Carrier(es, p)) == Some(out[k]) && Says(out[k], p).Some?
            && Mentions(out[..k], p) == 0 && Mentions(out[k + 1..], p) == 0
            && LastSays(out, p) == Says(out[k], p)
  {
    hide Emit, Mentions, LastSays, EventFor, Updates, Tail;
    var out := Dispatched(Coalesced(es));
    CoalescedMentionsOnce(es, p);
    k := Isolate(out, p);
    assert out[k] in out;
    DispatchMembers(Coalesced(es), out[k]);
    var q := EmitMembers(es, Order(es), out[k]);
    EventForSays(es, q, p);
  }

  /** Coalescing and reordering keep the last word on every path. */
  lemma CoalescingKeepsLastWord(es: seq<Event>, p: string)
    requires AllRaw(es)
    ensures LastSays(Dispatched(Coalesced(es)), p) == LastSays(es, p)
  {
    hide Emit, Mentions, LastSays, EventFor, Updates, Tail, Surviving;
    RawLastWord(es, p);
    CoalescedMentionsOnce(es, p);
    MentionedIffSays(Dispatched(Coalesced(es)), p);
    if p in Order(es) {
      var k := CoalescedEventOf(es, p);
      EventForSays(es, Carrier(es, p), p);
    }
  }

  /** No path is lost: it survives as the path or as the old path of a coalesced event. */
  lemma EveryPathSurvives(es: seq<Event>, i: nat)
    requires AllRaw(es) && i < |es|
    ensures exists e :: e in Coalesced(es) && (e.path == es[i].path || e.oldPath == Some(es[i].path))
  {
    assert HasPath(es, es[i].path);
    var k := CoalescedEventOf(es, es[i].path);
    var e := Dispatched(Coalesced(es))[k];
    DispatchMembers(Coalesced(es), e);
  }

  // ---------------------------------------------------------------- which event a path is left with

  /** The first event of this path. */
  ghost predicate FirstAt(es: seq<Event>, p: string, i: nat) {
    i < |es| && es[i].path == p && forall j :: 0 <= j < i ==> es[j].path != p
  }

  /** The last event of this path. */
  ghost predicate LastAt(es: seq<Event>, p: string, i: nat) {
    i < |es| && es[i].path == p && forall j :: i < j < |es| ==> es[j].path != p
  }

  /** Some DELETE of this path comes before every CREATE of it. */
  ghost predicate DeletedFirst(es: seq<Event>, p: string) {
    exists i :: 0 <= i < |es| && es[i].path == p && es[i].kind == Delete
                && forall j :: 0 <= j < i ==> !(es[j].path == p && es[j].kind == Create)
  }

  /** The last event wins. */
  lemma {:induction false} LastForExact(es: seq<Event>, p: string, i: nat)
    requires i < |es|
    ensures LastAt(es, p, i) ==> LastFor(es, p) == Some(es[i])
    decreases |es|
  {
    hide Order;
    var k := |es| - 1;
    if es[k].path != p && LastAt(es, p, i) {
      assert es[..k][i] == es[i];
      LastForExact(es[..k], p, i);
    }
  }

  lemma FirstKindExact(es: seq<Event>, p: string, i: nat)
    requires LastAt(es, p, i) && es[i].kind.Create?
    ensures Before(FirstIndex(es, p, Delete), FirstIndex(es, p, Create)) <==> DeletedFirst(es, p)
  {
    hide FirstIndex;
    var d, c := FirstIndex(es, p, Delete), FirstIndex(es, p, Create);
    if DeletedFirst(es, p) {
      var k :| 0 <= k < |es| && es[k].path == p && es[k].kind == Delete
               && forall j :: 0 <= j < k ==> !(es[j].path == p && es[j].kind == Create);
      assert d.Some? && d.value <= k;
      assert c.Some? && c.value > k;
    }
  }

  /** A path is left with its last event, but for a CREATE of a path that was deleted before it was ever created: that is
      an atomic save and becomes a MODIFY. */
  lemma SurvivingExact(es: seq<Event>, p: string, i: nat)
    requires LastAt(es, p, i)
    ensures p in Order(es)
    ensures Surviving(es, p) == if es[i].kind.Create? && DeletedFirst(es, p) then Event(Modify, p, None) else es[i]
  {
    LastForExact(es, p, i);
    hide Order, LastFor, FirstIndex;
    if es[i].kind.Create? {
      FirstKindExact(es, p, i);
    }
  }

  // ---------------------------------------------------------------- when a batch is folded

  /** The one path of the batch that is left with an event of this kind. */
  ghost predicate Sole(es: seq<Event>, p: string, kind: Kind) {
    && HasPath(es, p) && Surviving(es, p).kind == kind
    && forall q :: HasPath(es, q) && Surviving(es, q).kind == kind ==> q == p
  }

  lemma {:induction false} OfKindDistinct(es: seq<Event>, order: seq<string>, kind: Kind)
    requires Distinct(order) && forall p :: p in order ==> p in Order(es)
    ensures Distinct(OfKind(es, order, kind))
    decreases |order|
  {
    hide Order, Surviving;
    if order != [] {
      OfKindDistinct(es, order[..|order| - 1], kind);
      assert order[|order| - 1] !in order[..|order| - 1];
    }
  }

  lemma OnlyElement(s: seq<string>, p: string)
    requires Distinct(s)
    ensures s == [p] <==> forall q :: q in s <==> q == p
  {
    if forall q :: q in s <==> q == p {
      assert forall i :: 0 <= i < |s| ==> s[i] in s;
      assert p in s;
      var first, last := s[0], s[|s| - 1];
      assert first == last;
    }
  }

  /** There is one path of a kind exactly when all paths of the kind are that one. */
  lemma SoleExact(es: seq<Event>, p: string, kind: Kind)
    ensures OfKind(es, Order(es), kind) == [p] <==> Sole(es, p, kind)
  {
    var paths := OfKind(es, Order(es), kind);
    OfKindDistinct(es, Order(es), kind);
    OnlyElement(paths, p);
    hide OfKind, Surviving, HasPath, LastFor, Order;
    assert forall q :: q in paths <==> HasPath(es, q) && Surviving(es, q).kind == kind;
  }

  /** A batch is folded into a RENAME from `a` to `b` if and only if `a` is the one path left with a DELETE and `b` the one
      path left with a CREATE; with two of either, nothing is folded. */
  lemma FoldExact(es: seq<Event>, a: string, b: string)
    ensures RenamePair(es) == Some((a, b)) <==> Sole(es, a, Delete) && Sole(es, b, Create)
  {
    SoleExact(es, a, Delete);
    SoleExact(es, b, Create);
    hide OfKind, Sole, Order, Surviving;
    var deletes, creates := OfKind(es, Order(es), Delete), OfKind(es, Order(es), Create);
    assert RenamePair(es) == Some((a, b)) <==> deletes == [a] && creates == [b] by {
      assert deletes == [a] ==> deletes[0] == a && deletes[0] in deletes;
      assert creates == [b] ==> creates[0] == b && creates[0] in creates;
    }
  }

  // ---------------------------------------------------------------- the order of the batch

  lemma {:induction false} OrderIsFirstSeen(es: seq<Event>, m: nat, n: nat, i: nat, j: nat)
    requires m < n < |Order(es)| && FirstAt(es, Order(es)[m], i) && FirstAt(es, Order(es)[n], j)
    ensures i < j
    decreases |es|
  {
    var k := |es| - 1;
    var before := Order(es[..k]);
    assert before[m] == Order(es)[m] && before[m] in before;
    var i' := FirstOf(es[..k], before[m]);
    assert forall x :: 0 <= x < k ==> es[..k][x] == es[x];
    assert i' == i;
    if n < |before| {
      assert before[n] == Order(es)[n] && before[n] in before;
      var j' := FirstOf(es[..k], before[n]);
      assert j' == j;
      OrderIsFirstSeen(es[..k], m, n, i, j);
    }
  }

  lemma {:induction false} FirstOf(es: seq<Event>, p: string) returns (i: nat)
    requires HasPath(es, p)
    ensures FirstAt(es, p, i)
    decreases |es|
  {
    var k := |es| - 1;
    if HasPath(es[..k], p) {
      i := FirstOf(es[..k], p);
      assert forall j :: 0 <= j <= i ==> es[..k][j] == es[j];
    } else {
      i := k;
      assert forall j :: 0 <= j < k ==> es[..k][j] == es[j];
    }
  }

  /** Where two events of a batch come from among the paths. */
  lemma {:induction false} EmitPlaces(es: seq<Event>, order: seq<string>, i: nat, j: nat) returns (m: nat, n: nat)
    requires (forall q :: q in order ==> q in Order(es)) && i < j < |Emit(es, order)|
    ensures m < n < |order| && order[m] == Emit(es, order)[i].path && order[n] == Emit(es, order)[j].path
    decreases |order|
  {
    hide Order, Surviving, Emit, EventFor;
    EmitStep(es, order);
    var k := |order| - 1;
    var before := Emit(es, order[..k]);
    if j < |before| {
      m, n := EmitPlaces(es, order[..k], i, j);
    } else {
      n := k;
      var q := EmitMembers(es, order[..k], before[i]);
      EventForPath(es, q);
      m :| 0 <= m < k && order[m] == q;
    }
  }

  lemma EmitStep(es: seq<Event>, order: seq<string>)
    requires forall q :: q in order ==> q in Order(es)
    ensures order == [] ==> Emit(es, order) == []
    ensures order != [] ==>
              var k := |order| - 1;
              Emit(es, order[..k]) <= Emit(es, order) && |Emit(es, order)| <= |Emit(es, order[..k])| + 1
              && (|Emit(es, order)| > |Emit(es, order[..k])| ==> Emit(es, order)[|Emit(es, order)| - 1].path == order[k])
  {
    hide Order, EventFor;
    if order != [] {
      EventForPath(es, order[|order| - 1]);
    }
  }

  lemma EventForPath(es: seq<Event>, q: string)
    requires q in Order(es)
    ensures EventFor(es, q).Some? ==> EventFor(es, q).value.path == q
  {
    hide Order;
  }

  /** The coalesced batch goes by the first appearance of its paths. */
  lemma CoalescedInOrder(es: seq<Event>, m: nat, n: nat, i: nat, j: nat)
    requires m < n < |Coalesced(es)|
    requires FirstAt(es, Coalesced(es)[m].path, i) && FirstAt(es, Coalesced(es)[n].path, j)
    ensures i < j
  {
    hide Order, Emit;
    var a, b := EmitPlaces(es, Order(es), m, n);
    OrderIsFirstSeen(es, a, b, i, j);
  }

  predicate IsUpdate(e: Event) { e.kind == Create || e.kind == Modify }

  lemma {:induction false} SplitKinds(es: seq<Event>)
    ensures (forall e :: e in Updates(es) ==> IsUpdate(e)) && (forall e :: e in Tail(es) ==> !IsUpdate(e))
    decreases |es|
  {
    if es != [] {
      SplitKinds(es[..|es| - 1]);
    }
  }

  lemma {:induction false} UpdatePlaces(es: seq<Event>, i: nat, j: nat) returns (m: nat, n: nat)
    requires i < j < |Updates(es)|
    ensures m < n < |es| && es[m] == Updates(es)[i] && es[n] == Updates(es)[j]
    decreases |es|
  {
    var k := |es| - 1;
    if j < |Updates(es[..k])| {
      m, n := UpdatePlaces(es[..k], i, j);
    } else {
      n := k;
      DispatchMembers(es[..k], Updates(es[..k])[i]);
      m :| 0 <= m < k && es[m] == Updates(es[..k])[i];
    }
  }

  lemma {:induction false} TailPlaces(es: seq<Event>, i: nat, j: nat) returns (m: nat, n: nat)
    requires i < j < |Tail(es)|
    ensures m < n < |es| && es[m] == Tail(es)[i] && es[n] == Tail(es)[j]
    decreases |es|
  {
    var k := |es| - 1;
    if j < |Tail(es[..k])| {
      m, n := TailPlaces(es[..k], i, j);
    } else {
      n := k;
      DispatchMembers(es[..k], Tail(es[..k])[i]);
      m :| 0 <= m < k && es[m] == Tail(es[..k])[i];
    }
  }

  /** What is dispatched goes by the order of the batch, but for the updates, which all come first. */
  lemma DispatchInOrder(es: seq<Event>, i: nat, j: nat)
    requires i < j < |Dispatched(es)|
    ensures var out := Dispatched(es);
            && (IsUpdate(out[j]) ==> IsUpdate(out[i]))
            && (IsUpdate(out[i]) == IsUpdate(out[j]) ==> exists m, n :: 0 <= m < n < |es| && es[m] == out[i] && es[n] == out[j])
  {
    SplitKinds(es);
    hide Updates, Tail, IsUpdate;
    var a := |Updates(es)|;
    assert i < a ==> Dispatched(es)[i] in Updates(es);
    assert i >= a ==> Dispatched(es)[i] in Tail(es);
    assert j < a ==> Dispatched(es)[j] in Updates(es);
    assert j >= a ==> Dispatched(es)[j] in Tail(es);
    if j < a {
      var m, n := UpdatePlaces(es, i, j);
    } else if i >= a {
      var m, n := TailPlaces(es, i - a, j - a);
    }
  }
}
