/** Listing scored chunks best first. */
module Ranking {
  /** Higher score first, smaller id on a tie. */
  predicate Ahead(a: (nat, real), b: (nat, real)) {
    a.1 > b.1 || (a.1 == b.1 && a.0 < b.0)
  }

  ghost predicate Ranked(s: seq<(nat, real)>) {
    forall i, j :: 0 <= i < j < |s| ==> Ahead(s[i], s[j])
  }

  /** `s` lists exactly the entries of `fused`, best first. */
  ghost predicate IsRankingOf(s: seq<(nat, real)>, fused: map<nat, real>) {
    Ranked(s) && forall x :: x in s <==> x.0 in fused && fused[x.0] == x.1
  }

  /** Entries have exactly one such listing, so `sorted` has no freedom left. */
  lemma {:induction false} RankingUnique(a: seq<(nat, real)>, b: seq<(nat, real)>)
    requires Ranked(a) && Ranked(b) && forall x :: x in a <==> x in b
    ensures a == b
    decreases |a|
  {
    if a != [] {
      assert a[0] in a;
    }
    if b != [] {
      assert b[0] in b;
    }
    if a != [] {
      assert a[0] in b && b[0] in a;
      var j :| 0 <= j < |b| && b[j] == a[0];
      var i :| 0 <= i < |a| && a[i] == b[0];
      assert a[0] == b[0];
      assert a == [a[0]] + a[1..] && b == [b[0]] + b[1..];
      assert a[0] !in a[1..] && b[0] !in b[1..];
      forall x ensures x in a[1..] <==> x in b[1..] {
        assert x in a <==> x in b;
      }
      RankingUnique(a[1..], b[1..]);
    }
  }

  function Insert(s: seq<(nat, real)>, x: (nat, real)): (r: seq<(nat, real)>)
    requires Ranked(s) && forall y :: y in s ==> y.0 != x.0
    ensures Ranked(r) && forall y :: y in r <==> y in s || y == x
  {
    if s == [] then [x]
    else if Ahead(x, s[0]) then [x] + s
    else
      var rest := Insert(s[1..], x);
      assert s == [s[0]] + s[1..] && s[0] in s;
      assert forall y :: y in s[1..] ==> Ahead(s[0], y);
      assert forall j :: 0 <= j < |rest| ==> rest[j] in rest && Ahead(s[0], rest[j]);
      [s[0]] + rest
  }

  ghost predicate Listed(s: seq<(nat, real)>, fused: map<nat, real>, todo: set<nat>) {
    forall x :: x in s <==> x.0 in fused && x.0 !in todo && fused[x.0] == x.1
  }

  method SortedItems(fused: map<nat, real>) returns (s: seq<(nat, real)>)
    ensures IsRankingOf(s, fused)
  {
    s := [];
    var todo: set<nat> := fused.Keys;
    while todo != {}
      invariant todo <= fused.Keys && Ranked(s) && Listed(s, fused, todo)
      decreases todo
    {
      var id :| id in todo;
      assert forall y :: y in s ==> y.0 != id;
      s := Insert(s, (id, fused[id]));
      todo := todo - {id};
    }
  }
}
