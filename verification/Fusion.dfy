/** Reciprocal-rank fusion: scores accumulated over rankings, and the order they impose. */
module Fusion {
  import opened Prelude
  import opened Ranking

  /** 1 / (k + rank); ranks start at 1. */
  function RrfScore(rank: nat, k: nat): (r: real)
    requires rank >= 1
    ensures r > 0.0 && r * (k + rank) as real == 1.0
  {
    1.0 / (k + rank) as real
  }

  /** What one place is worth. */
  function Share(weight: real, rank: nat, k: nat): real
    requires rank >= 1
  {
    weight * RrfScore(rank, k)
  }

  // ---------------------------------------------------------------- closed form

  /** What the first `n` places of one ranking give a chunk. */
  function RankingScore<I(==)>(ranking: seq<I>, n: nat, c: I, weight: real, k: nat): real
    requires n <= |ranking|
  {
    if n == 0 then 0.0
    else
      RankingScore(ranking, n - 1, c, weight, k) + (if ranking[n - 1] == c then Share(weight, n, k) else 0.0)
  }

  /** What a list of rankings of one source gives a chunk. */
  function SourceScore<I(==)>(rankings: seq<seq<I>>, c: I, weight: real, k: nat): real {
    if rankings == [] then 0.0
    else
      var last := rankings[|rankings| - 1];
      SourceScore(rankings[..|rankings| - 1], c, weight, k) + RankingScore(last, |last|, c, weight, k)
  }

  /** The fused score: lexical and dense rankings, each with its weight. */
  function Score<I(==)>(bm25: seq<seq<I>>, dense: seq<seq<I>>, bw: real, dw: real, k: nat, c: I): real {
    SourceScore(bm25, c, bw, k) + SourceScore(dense, c, dw, k)
  }

  ghost predicate InSome<I>(rankings: seq<seq<I>>, c: I) {
    exists i :: 0 <= i < |rankings| && c in rankings[i]
  }

  function ScoreIn<I(==)>(fused: map<I, real>, c: I): real {
    if c in fused then fused[c] else 0.0
  }

  // ---------------------------------------------------------------- accumulation

  /** One source's double loop: every hit adds its weighted share to the chunk's entry. */
  method Accumulate<I(==,!new)>(start: map<I, real>, rankings: seq<seq<I>>, weight: real, k: nat)
    returns (fused: map<I, real>)
    ensures forall c :: ScoreIn(fused, c) == ScoreIn(start, c) + SourceScore(rankings, c, weight, k)
    ensures forall c :: c in fused <==> c in start || InSome(rankings, c)
  {
    fused := start;
    for i := 0 to |rankings|
      invariant forall c :: ScoreIn(fused, c) == ScoreIn(start, c) + SourceScore(rankings[..i], c, weight, k)
      invariant forall c :: c in fused <==> c in start || InSome(rankings[..i], c)
    {
      assert rankings[..i + 1][..i] == rankings[..i];
      fused := AccumulateOne(fused, rankings[i], weight, k);
      forall c ensures InSome(rankings[..i + 1], c) <==> InSome(rankings[..i], c) || c in rankings[i] {
        InSomeSnoc(rankings, i, c);
      }
    }
    assert rankings[..|rankings|] == rankings;
  }

  lemma InSomeSnoc<I>(rankings: seq<seq<I>>, i: nat, c: I)
    requires i < |rankings|
    ensures InSome(rankings[..i + 1], c) <==> InSome(rankings[..i], c) || c in rankings[i]
  {
    var a, b := rankings[..i], rankings[..i + 1];
    if InSome(a, c) {
      var j :| 0 <= j < |a| && c in a[j];
      assert b[j] == a[j];
    }
    if InSome(b, c) {
      var j :| 0 <= j < |b| && c in b[j];
      assert j < i ==> a[j] == b[j];
    }
    assert b[i] == rankings[i];
  }

  method AccumulateOne<I(==,!new)>(start: map<I, real>, ranking: seq<I>, weight: real, k: nat)
    returns (fused: map<I, real>)
    ensures forall c :: ScoreIn(fused, c) == ScoreIn(start, c) + RankingScore(ranking, |ranking|, c, weight, k)
    ensures forall c :: c in fused <==> c in start || c in ranking
  {
    hide RrfScore, Share;
    fused := start;
    for n := 0 to |ranking|
      invariant forall c :: ScoreIn(fused, c) == ScoreIn(start, c) + RankingScore(ranking, n, c, weight, k)
      invariant forall c :: c in fused <==> c in start || c in ranking[..n]
    {
      var id := ranking[n];
      fused := fused[id := ScoreIn(fused, id) + Share(weight, n + 1, k)];
      assert ranking[..n + 1] == ranking[..n] + [id];
    }
    assert ranking[..|ranking|] == ranking;
  }

  /** `_rrf_fuse`: every chunk of every ranking once, with the closed-form score, best first. */
  method RrfFuse(bm25: seq<seq<nat>>, dense: seq<seq<nat>>, bw: real, dw: real, k: nat) returns (s: seq<(nat, real)>)
    ensures Ranked(s)
    ensures forall c: nat, v :: (c, v) in s <==> (InSome(bm25, c) || InSome(dense, c)) && v == Score(bm25, dense, bw, dw, k, c)
  {
    var lexical := Accumulate(map[], bm25, bw, k);
    var fused := Accumulate(lexical, dense, dw, k);
    s := SortedItems(fused);
    forall c: nat, v ensures (c, v) in s <==> (InSome(bm25, c) || InSome(dense, c)) && v == Score(bm25, dense, bw, dw, k, c) {
      assert ScoreIn(lexical, c) == SourceScore(bm25, c, bw, k);
      assert ScoreIn(fused, c) == Score(bm25, dense, bw, dw, k, c);
      assert (c, v) in s <==> c in fused && fused[c] == v;
    }
  }

  // ---------------------------------------------------------------- properties of the score

  lemma {:induction false} SourceSplit<I>(a: seq<seq<I>>, b: seq<seq<I>>, c: I, weight: real, k: nat)
    ensures SourceScore(a + b, c, weight, k) == SourceScore(a, c, weight, k) + SourceScore(b, c, weight, k)
    decreases |b|
  {
    if b == [] {
      assert a + b == a;
    } else {
      var n := |b| - 1;
      assert (a + b)[..|a + b| - 1] == a + b[..n];
      SourceSplit(a, b[..n], c, weight, k);
    }
  }

  lemma SourceOne<I>(r: seq<I>, c: I, weight: real, k: nat)
    ensures SourceScore([r], c, weight, k) == RankingScore(r, |r|, c, weight, k)
  {
    assert [r][..0] == [];
  }

  /** The order in which a source's rankings arrive does not matter. */
  lemma {:induction false} SourceOrderFree<I>(a: seq<seq<I>>, b: seq<seq<I>>, c: I, weight: real, k: nat)
    requires multiset(a) == multiset(b)
    ensures SourceScore(a, c, weight, k) == SourceScore(b, c, weight, k)
    decreases |a|
  {
    if a == [] {
      assert |multiset(b)| == 0;
      assert b == [];
    } else {
      var n := |a| - 1;
      var x := a[n];
      assert x in multiset(a) && x in multiset(b);
      var j :| 0 <= j < |b| && b[j] == x;
      var rest := b[..j] + b[j + 1..];
      assert a == a[..n] + [x];
      assert b == b[..j] + [x] + b[j + 1..];
      assert multiset(b) == multiset(b[..j]) + multiset{x} + multiset(b[j + 1..]);
      assert multiset(a[..n]) == multiset(a) - multiset{x};
      assert multiset(rest) == multiset(b) - multiset{x};
      assert multiset(a[..n]) == multiset(rest);
      SourceOrderFree(a[..n], rest, c, weight, k);
      SourceSplit(b[..j] + [x], b[j + 1..], c, weight, k);
      SourceSplit(b[..j], [x], c, weight, k);
      SourceSplit(b[..j], b[j + 1..], c, weight, k);
      SourceOne(x, c, weight, k);
    }
  }

  lemma {:induction false} SameMembers<I>(a: seq<seq<I>>, b: seq<seq<I>>, c: I)
    requires multiset(a) == multiset(b)
    ensures InSome(a, c) <==> InSome(b, c)
  {
    if InSome(a, c) {
      var i :| 0 <= i < |a| && c in a[i];
      assert a[i] in multiset(b);
      var j :| 0 <= j < |b| && b[j] == a[i];
    }
    if InSome(b, c) {
      var i :| 0 <= i < |b| && c in b[i];
      assert b[i] in multiset(a);
      var j :| 0 <= j < |a| && a[j] == b[i];
    }
  }

  /** What `RrfFuse` promises of its result. */
  ghost predicate IsFusion(s: seq<(nat, real)>, bm25: seq<seq<nat>>, dense: seq<seq<nat>>, bw: real, dw: real, k: nat) {
    && Ranked(s)
    && forall c: nat, v :: (c, v) in s <==> (InSome(bm25, c) || InSome(dense, c)) && v == Score(bm25, dense, bw, dw, k, c)
  }

  /** Fusing the same rankings in another order gives the very same list. */
  lemma FusionOrderFree(s: seq<(nat, real)>, bm25: seq<seq<nat>>, dense: seq<seq<nat>>,
                        s': seq<(nat, real)>, bm25': seq<seq<nat>>, dense': seq<seq<nat>>, bw: real, dw: real, k: nat)
    requires multiset(bm25) == multiset(bm25') && multiset(dense) == multiset(dense')
    requires IsFusion(s, bm25, dense, bw, dw, k) && IsFusion(s', bm25', dense', bw, dw, k)
    ensures s == s'
  {
    hide SourceScore, InSome;
    forall x ensures x in s <==> x in s' {
      SourceOrderFree(bm25, bm25', x.0, bw, k);
      SourceOrderFree(dense, dense', x.0, dw, k);
      SameMembers(bm25, bm25', x.0);
      SameMembers(dense, dense', x.0);
      var (c, v) := x;
      assert x == (c, v);
      assert (c, v) in s <==> (c, v) in s';
    }
    RankingUnique(s, s');
  }

  // ---------------------------------------------------------------- what the damping constant does

  /** Times the damped rank, a place is worth its weight. */
  lemma ShareExact(weight: real, rank: nat, k: nat)
    requires rank >= 1
    ensures Share(weight, rank, k) * (k + rank) as real == weight
  {
    var d := (k + rank) as real;
    assert weight * RrfScore(rank, k) * d == weight * (RrfScore(rank, k) * d);
  }

  lemma {:induction false} AbsentSource<I>(rankings: seq<seq<I>>, c: I, weight: real, k: nat)
    requires forall i :: 0 <= i < |rankings| ==> c !in rankings[i]
    ensures SourceScore(rankings, c, weight, k) == 0.0
    decreases |rankings|
  {
    if rankings != [] {
      var n := |rankings| - 1;
      AbsentSource(rankings[..n], c, weight, k);
      AbsentScore(rankings[n], |rankings[n]|, c, weight, k);
    }
  }

  lemma {:induction false} OnePlaceSource<I>(rankings: seq<seq<I>>, q: nat, i: nat, weight: real, k: nat)
    requires q < |rankings| && i < |rankings[q]| && Distinct(rankings[q])
    requires forall j :: 0 <= j < |rankings| && j != q ==> rankings[q][i] !in rankings[j]
    ensures SourceScore(rankings, rankings[q][i], weight, k) == Share(weight, i + 1, k)
    decreases |rankings|
  {
    hide Share;
    var n := |rankings| - 1;
    var c := rankings[q][i];
    if q == n {
      AbsentSource(rankings[..n], c, weight, k);
      PlaceScore(rankings[n], |rankings[n]|, i, weight, k);
    } else {
      OnePlaceSource(rankings[..n], q, i, weight, k);
      AbsentScore(rankings[n], |rankings[n]|, c, weight, k);
    }
  }

  /** A chunk that stands once, at place `i + 1` of one ranking, is worth the weight of that ranking over `k + i + 1`. */
  lemma OnePlace(s: seq<(nat, real)>, bm25: seq<seq<nat>>, dense: seq<seq<nat>>, bw: real, dw: real, k: nat,
                 lexical: bool, q: nat, i: nat, v: real)
    requires IsFusion(s, bm25, dense, bw, dw, k)
    requires var its := if lexical then bm25 else dense;
             var others := if lexical then dense else bm25;
             && q < |its| && i < |its[q]| && Distinct(its[q])
             && (forall j :: 0 <= j < |its| && j != q ==> its[q][i] !in its[j])
             && (forall j :: 0 <= j < |others| ==> its[q][i] !in others[j])
             && (its[q][i], v) in s
    ensures v * (k + i + 1) as real == if lexical then bw else dw
  {
    hide SourceScore, InSome, Share;
    if lexical {
      OnePlaceSource(bm25, q, i, bw, k);
      AbsentSource(dense, bm25[q][i], dw, k);
      ShareExact(bw, i + 1, k);
    } else {
      OnePlaceSource(dense, q, i, dw, k);
      AbsentSource(bm25, dense[q][i], bw, k);
      ShareExact(dw, i + 1, k);
    }
  }

  /** With one lexical and one dense ranking of the same weight, a chunk at places `i` and `j` of the two scores more than
      one that stands only once, at place `h`, if and only if the damped sums say so: a large `k` favours agreement. */
  lemma AgreementExact(s: seq<(nat, real)>, lexical: seq<nat>, dense: seq<nat>, weight: real, k: nat,
                       i: nat, j: nat, h: nat, both: real, once: real)
    requires IsFusion(s, [lexical], [dense], weight, weight, k) && weight > 0.0
    requires Distinct(lexical) && Distinct(dense) && 1 <= i <= |lexical| && 1 <= j <= |dense| && 1 <= h <= |lexical|
    requires lexical[i - 1] == dense[j - 1] && lexical[h - 1] !in dense
    requires (lexical[i - 1], both) in s && (lexical[h - 1], once) in s
    ensures both > once <==> (k + h) * (2 * k + i + j) > (k + i) * (k + j)
  {
    var x, y := lexical[i - 1], lexical[h - 1];
    SourceOne(lexical, x, weight, k);
    SourceOne(dense, x, weight, k);
    SourceOne(lexical, y, weight, k);
    SourceOne(dense, y, weight, k);
    PlaceScore(lexical, |lexical|, i - 1, weight, k);
    PlaceScore(dense, |dense|, j - 1, weight, k);
    PlaceScore(lexical, |lexical|, h - 1, weight, k);
    AbsentScore(dense, |dense|, y, weight, k);
    hide SourceScore, InSome, Share, RankingScore, RrfScore;
    assert both == Share(weight, i, k) + Share(weight, j, k) && once == Share(weight, h, k);
    DampedSums(weight, k, i, j, h);
  }

  lemma DampedSums(weight: real, k: nat, i: nat, j: nat, h: nat)
    requires weight > 0.0 && i >= 1 && j >= 1 && h >= 1
    ensures Share(weight, i, k) + Share(weight, j, k) > Share(weight, h, k)
            <==> (k + h) * (2 * k + i + j) > (k + i) * (k + j)
  {
    var a, b, c := k + i, k + j, k + h;
    var gap := 1.0 / a as real + 1.0 / b as real - 1.0 / c as real;
    GapSign(a, b, c);
    Signed(weight, gap);
    assert weight * gap == Share(weight, i, k) + Share(weight, j, k) - Share(weight, h, k);
  }

  lemma Signed(weight: real, gap: real)
    requires weight > 0.0
    ensures weight * gap > 0.0 <==> gap > 0.0
  {
    if gap <= 0.0 {
      Scaled(weight, -gap);
    }
  }

  lemma GapSign(a: nat, b: nat, c: nat)
    requires a >= 1 && b >= 1 && c >= 1
    ensures 1.0 / a as real + 1.0 / b as real - 1.0 / c as real > 0.0 <==> c * (a + b) > a * b
  {
    var x, y, z := a as real, b as real, c as real;
    var gap := 1.0 / x + 1.0 / y - 1.0 / z;
    var d := x * y * z;
    assert d > 0.0;
    assert d * gap == y * z + x * z - x * y;
    Signed(d, gap);
    assert (c * (a + b) - a * b) as real == y * z + x * z - x * y by {
      assert (c * (a + b)) as real == z * (x + y);
      assert (a * b) as real == x * y;
    }
  }

  // ---------------------------------------------------------------- dominance

  /** In a ranking without repeats a chunk is paid for its one place. */
  lemma {:induction false} PlaceScore<I>(r: seq<I>, n: nat, i: nat, weight: real, k: nat)
    requires Distinct(r) && n <= |r| && i < |r|
    ensures RankingScore(r, n, r[i], weight, k) == if i < n then Share(weight, i + 1, k) else 0.0
    decreases n
  {
    if n > 0 {
      PlaceScore(r, n - 1, i, weight, k);
    }
  }

  lemma {:induction false} AbsentScore<I>(r: seq<I>, n: nat, c: I, weight: real, k: nat)
    requires n <= |r| && c !in r
    ensures RankingScore(r, n, c, weight, k) == 0.0
    decreases n
  {
    if n > 0 {
      AbsentScore(r, n - 1, c, weight, k);
    }
  }

  lemma {:induction false} NonNegative<I>(r: seq<I>, n: nat, c: I, weight: real, k: nat)
    requires n <= |r| && weight >= 0.0
    ensures RankingScore(r, n, c, weight, k) >= 0.0
    decreases n
  {
    if n > 0 {
      NonNegative(r, n - 1, c, weight, k);
      assert Share(weight, n, k) >= 0.0;
    }
  }

  lemma EarlierIsMore(i: nat, j: nat, weight: real, k: nat)
    requires 1 <= i <= j && weight >= 0.0
    ensures Share(weight, i, k) >= Share(weight, j, k)
    ensures i < j && weight > 0.0 ==> Share(weight, i, k) > Share(weight, j, k)
  {
    var a, b := (k + i) as real, (k + j) as real;
    var gap := RrfScore(i, k) - RrfScore(j, k);
    assert gap == (b - a) / (a * b);
    assert i < j ==> gap > 0.0;
    Scaled(weight, gap);
    assert weight * gap == Share(weight, i, k) - Share(weight, j, k);
  }

  lemma Scaled(weight: real, gap: real)
    requires weight >= 0.0 && gap >= 0.0
    ensures weight * gap >= 0.0 && (weight > 0.0 && gap > 0.0 ==> weight * gap > 0.0)
  {
  }

  /** `x` stands before `y` wherever `y` stands. */
  ghost predicate Leads<I>(r: seq<I>, x: I, y: I) {
    y in r ==> exists i, j :: 0 <= i < j < |r| && r[i] == x && r[j] == y
  }

  lemma LeadScores<I>(r: seq<I>, x: I, y: I, weight: real, k: nat)
    requires Distinct(r) && weight >= 0.0 && Leads(r, x, y)
    ensures RankingScore(r, |r|, x, weight, k) >= RankingScore(r, |r|, y, weight, k)
    ensures weight > 0.0 && y in r ==> RankingScore(r, |r|, x, weight, k) > RankingScore(r, |r|, y, weight, k)
  {
    hide RankingScore, RrfScore, Share;
    if y in r {
      var i, j :| 0 <= i < j < |r| && r[i] == x && r[j] == y;
      PlaceScore(r, |r|, i, weight, k);
      PlaceScore(r, |r|, j, weight, k);
      EarlierIsMore(i + 1, j + 1, weight, k);
      assert RankingScore(r, |r|, x, weight, k) == Share(weight, i + 1, k);
      assert RankingScore(r, |r|, y, weight, k) == Share(weight, j + 1, k);
    } else {
      AbsentScore(r, |r|, y, weight, k);
      NonNegative(r, |r|, x, weight, k);
    }
  }

  ghost predicate LeadsAll<I>(rankings: seq<seq<I>>, x: I, y: I) {
    forall i :: 0 <= i < |rankings| ==> Distinct(rankings[i]) && Leads(rankings[i], x, y)
  }

  lemma {:induction false} LeadSource<I>(rankings: seq<seq<I>>, x: I, y: I, weight: real, k: nat)
    requires weight >= 0.0 && LeadsAll(rankings, x, y)
    ensures SourceScore(rankings, x, weight, k) >= SourceScore(rankings, y, weight, k)
    ensures weight > 0.0 && InSome(rankings, y) ==> SourceScore(rankings, x, weight, k) > SourceScore(rankings, y, weight, k)
    decreases |rankings|
  {
    if rankings != [] {
      var n := |rankings| - 1;
      LeadSource(rankings[..n], x, y, weight, k);
      LeadScores(rankings[n], x, y, weight, k);
      InSomeSnoc(rankings, n, y);
      assert rankings[..n + 1] == rankings;
      hide InSome, RankingScore;
    }
  }

  /** A chunk that leads another in every ranking that has the other is fused strictly ahead of it, as long as every
      source that has rankings has a positive weight, which is how searches call this. */
  lemma Dominance(s: seq<(nat, real)>, bm25: seq<seq<nat>>, dense: seq<seq<nat>>, bw: real, dw: real, k: nat,
                  i: nat, j: nat)
    requires IsFusion(s, bm25, dense, bw, dw, k) && i < |s| && j < |s|
    requires (bm25 == [] || bw > 0.0) && (dense == [] || dw > 0.0)
    requires LeadsAll(bm25, s[i].0, s[j].0) && LeadsAll(dense, s[i].0, s[j].0)
    ensures s[i].1 > s[j].1 && i < j
  {
    LeadWeighted(bm25, s[i].0, s[j].0, bw, k);
    LeadWeighted(dense, s[i].0, s[j].0, dw, k);
    assert (s[i].0, s[i].1) in s && (s[j].0, s[j].1) in s;
    hide SourceScore, InSome, LeadsAll;
  }

  lemma LeadWeighted<I>(rankings: seq<seq<I>>, x: I, y: I, weight: real, k: nat)
    requires (rankings == [] || weight > 0.0) && LeadsAll(rankings, x, y)
    ensures SourceScore(rankings, x, weight, k) >= SourceScore(rankings, y, weight, k)
    ensures InSome(rankings, y) ==> SourceScore(rankings, x, weight, k) > SourceScore(rankings, y, weight, k)
  {
    if rankings != [] {
      LeadSource(rankings, x, y, weight, k);
      hide SourceScore;
    }
  }

  /** With a weight of zero the two can tie, and then the smaller id comes first. */
  lemma WeakDominance(s: seq<(nat, real)>, bm25: seq<seq<nat>>, dense: seq<seq<nat>>, bw: real, dw: real, k: nat,
                      i: nat, j: nat)
    requires IsFusion(s, bm25, dense, bw, dw, k) && bw >= 0.0 && dw >= 0.0 && i < |s| && j < |s|
    requires LeadsAll(bm25, s[i].0, s[j].0) && LeadsAll(dense, s[i].0, s[j].0)
    ensures s[i].1 >= s[j].1
    ensures j < i ==> s[i].1 == s[j].1 && s[j].0 < s[i].0
  {
    LeadSource(bm25, s[i].0, s[j].0, bw, k);
    LeadSource(dense, s[i].0, s[j].0, dw, k);
    assert (s[i].0, s[i].1) in s && (s[j].0, s[j].1) in s;
    hide SourceScore, InSome, LeadsAll;
  }

  // ---------------------------------------------------------------- many queries

  /** The per-query scores added up. */
  function SumOfSingles<I(==)>(bm25: seq<seq<I>>, dense: seq<seq<I>>, bw: real, dw: real, k: nat, c: I): real
    requires |bm25| == |dense|
  {
    if bm25 == [] then 0.0
    else
      var q := |bm25| - 1;
      SumOfSingles(bm25[..q], dense[..q], bw, dw, k, c) + Score([bm25[q]], [dense[q]], bw, dw, k, c)
  }

  /** Fusing N queries at once scores every chunk as running the filter once per query and adding up. */
  lemma {:induction false} MultiIsSumOfSingles<I>(bm25: seq<seq<I>>, dense: seq<seq<I>>, bw: real, dw: real, k: nat, c: I)
    requires |bm25| == |dense|
    ensures Score(bm25, dense, bw, dw, k, c) == SumOfSingles(bm25, dense, bw, dw, k, c)
    decreases |bm25|
  {
    if bm25 != [] {
      var q := |bm25| - 1;
      MultiIsSumOfSingles(bm25[..q], dense[..q], bw, dw, k, c);
      SourceOne(bm25[q], c, bw, k);
      SourceOne(dense[q], c, dw, k);
    }
  }

  /** Every order lists every chunk, as `argsort` does. */
  ghost predicate OrdersOf(chunks: seq<string>, orders: seq<seq<string>>) {
    forall q, c :: 0 <= q < |orders| ==> (c in orders[q] <==> c in chunks)
  }

  lemma OrdersCover(chunks: seq<string>, orders: seq<seq<string>>, c: string)
    requires OrdersOf(chunks, orders) && orders != []
    ensures InSome(orders, c) <==> c in chunks
  {
    if c in chunks {
      assert c in orders[0];
    }
  }

  /** The double loops of `filter_multi_query`. */
  method FuseQueries(chunks: seq<string>, bm25: seq<seq<string>>, dense: seq<seq<string>>, bw: real, dw: real, k: nat)
    returns (fused: map<string, real>)
    requires |bm25| == |dense| && OrdersOf(chunks, bm25) && OrdersOf(chunks, dense)
    requires bm25 != [] && (bw > 0.0 || dw > 0.0)
    ensures forall c :: c in fused <==> c in chunks
    ensures var b, d := if bw > 0.0 then bw else 0.0, if dw > 0.0 then dw else 0.0;
            forall c :: c in chunks ==> ScoreIn(fused, c) == SumOfSingles(bm25, dense, b, d, k, c)
  {
    fused := map[];
    if bw > 0.0 {
      fused := Accumulate(fused, bm25, bw, k);
    }
    if dw > 0.0 {
      fused := Accumulate(fused, dense, dw, k);
    }
    hide OrdersOf, InSome;
    var b, d := if bw > 0.0 then bw else 0.0, if dw > 0.0 then dw else 0.0;
    forall c ensures ScoreIn(fused, c) == SumOfSingles(bm25, dense, b, d, k, c)
             ensures c in fused <==> c in chunks {
      OrdersCover(chunks, bm25, c);
      OrdersCover(chunks, dense, c);
      ZeroWeight(bm25, c, k);
      ZeroWeight(dense, c, k);
      MultiIsSumOfSingles(bm25, dense, b, d, k, c);
    }
  }

  /** Where an id stands first, or the length if it does not. */
  function At(order: seq<string>, c: string): (n: nat)
    ensures n <= |order| && (n < |order| <==> c in order)
    ensures n < |order| ==> order[n] == c
    ensures c !in order[..n]
  {
    if order == [] then 0
    else
      assert order == [order[0]] + order[1..];
      if order[0] == c then 0
      else
        var n := At(order[1..], c) + 1;
        assert order[..n] == [order[0]] + order[1..][..n - 1];
        n
  }

  /** Higher score, or the same and first in `order`. */
  predicate Ahead(order: seq<string>, a: (string, real), b: (string, real)) {
    a.1 > b.1 || (a.1 == b.1 && At(order, a.0) < At(order, b.0))
  }

  /** Two entries never go ahead of each other, and of two ids that are listed one goes first. */
  lemma AheadExact(order: seq<string>, a: (string, real), b: (string, real), i: nat, j: nat)
    requires i < |order| && order[i] == a.0 && a.0 !in order[..i]
    requires j < |order| && order[j] == b.0 && b.0 !in order[..j]
    ensures Ahead(order, a, b) <==> a.1 > b.1 || (a.1 == b.1 && i < j)
    ensures !(Ahead(order, a, b) && Ahead(order, b, a))
    ensures a.0 != b.0 ==> Ahead(order, a, b) || Ahead(order, b, a)
  {
    FirstIs(order, a.0, i);
    FirstIs(order, b.0, j);
  }

  lemma FirstIs(order: seq<string>, c: string, i: nat)
    requires i < |order| && order[i] == c && c !in order[..i]
    ensures At(order, c) == i
  {
  }

  /** Every entry once, highest score first, those of one score in the order given. */
  ghost predicate Descending(s: seq<(string, real)>, fused: map<string, real>, order: seq<string>) {
    && |s| == |fused|
    && (forall i, j :: 0 <= i < j < |s| ==> Ahead(order, s[i], s[j]) && s[i].0 != s[j].0)
    && forall i :: 0 <= i < |s| ==> s[i].0 in fused && s[i].1 == fused[s[i].0]
  }

  ghost predicate Falling(s: seq<(string, real)>) {
    forall i, j :: 0 <= i < j < |s| ==> s[i].1 >= s[j].1
  }

  /** Behind everything that scores at least as much. */
  function Place(s: seq<(string, real)>, score: real): (n: nat)
    requires Falling(s)
    ensures n <= |s|
    ensures forall i :: 0 <= i < n ==> s[i].1 >= score
    ensures forall i :: n <= i < |s| ==> s[i].1 < score
  {
    if s == [] then 0
    else if s[|s| - 1].1 < score then
      var before := s[..|s| - 1];
      assert forall i :: 0 <= i < |before| ==> before[i] == s[i];
      Place(before, score)
    else |s|
  }

  ghost predicate Stable(order: seq<string>, s: seq<(string, real)>) {
    forall i, j :: 0 <= i < j < |s| ==> s[i].1 == s[j].1 ==> At(order, s[i].0) < At(order, s[j].0)
  }

  ghost predicate DistinctIds(s: seq<(string, real)>) {
    forall i, j :: 0 <= i < j < |s| ==> s[i].0 != s[j].0
  }

  lemma Shifted<T>(s: seq<T>, n: nat, x: T, i: nat)
    requires n <= |s| && i <= |s|
    ensures (s[..n] + [x] + s[n..])[i] == if i < n then s[i] else if i == n then x else s[i - 1]
  {
  }

  lemma PlacedFalls(s: seq<(string, real)>, n: nat, x: (string, real))
    requires Falling(s) && DistinctIds(s) && n <= |s| && forall i :: 0 <= i < |s| ==> s[i].0 != x.0
    requires forall i :: 0 <= i < n ==> s[i].1 >= x.1
    requires forall i :: n <= i < |s| ==> s[i].1 < x.1
    ensures var r := s[..n] + [x] + s[n..];
            |r| == |s| + 1 && Falling(r) && DistinctIds(r) && forall i :: 0 <= i < |r| ==> r[i] == x || r[i] in s
  {
    var r := s[..n] + [x] + s[n..];
    forall i, j | 0 <= i < j < |r| ensures r[i].1 >= r[j].1 && r[i].0 != r[j].0 {
      Shifted(s, n, x, i);
      Shifted(s, n, x, j);
    }
    forall i | 0 <= i < |r| ensures r[i] == x || r[i] in s {
      Shifted(s, n, x, i);
    }
  }

  lemma PlacedStable(order: seq<string>, s: seq<(string, real)>, n: nat, x: (string, real))
    requires Stable(order, s) && n <= |s| && forall i :: 0 <= i < |s| ==> At(order, s[i].0) < At(order, x.0)
    requires forall i :: n <= i < |s| ==> s[i].1 < x.1
    ensures Stable(order, s[..n] + [x] + s[n..])
  {
    hide At;
    var r := s[..n] + [x] + s[n..];
    forall i, j | 0 <= i < j < |r| && r[i].1 == r[j].1 ensures At(order, r[i].0) < At(order, r[j].0) {
      Shifted(s, n, x, i);
      Shifted(s, n, x, j);
    }
  }

  /** Sorts the entries of a map that was filled in `order`, stably. */
  method SortByScore(fused: map<string, real>, order: seq<string>) returns (s: seq<(string, real)>)
    requires forall c :: c in fused <==> c in order
    ensures Descending(s, fused, order)
  {
    hide Place, At, Falling, DistinctIds, Stable;
    s := [];
    NothingInOrder(order);
    var done: set<string> := {};
    for k := 0 to |order|
      invariant done == (set c | c in order[..k]) && |s| == |done|
      invariant Falling(s) && DistinctIds(s) && Stable(order, s)
      invariant forall x :: x in s ==> x.0 in done && x.1 == fused[x.0]
    {
      var c := order[k];
      assert order[..k + 1] == order[..k] + [c];
      if c !in done {
        var n := Place(s, fused[c]);
        assert forall i :: 0 <= i < |s| ==> s[i] in s;
        forall i | 0 <= i < |s| ensures At(order, s[i].0) < At(order, c) {
          FirstBefore(order, k, s[i].0, c);
        }
        PlacedFalls(s, n, (c, fused[c]));
        PlacedStable(order, s, n, (c, fused[c]));
        s := s[..n] + [(c, fused[c])] + s[n..];
        assert forall x :: x in s ==> exists i :: 0 <= i < |s| && s[i] == x;
      }
      done := done + {c};
    }
    assert order[..|order|] == order && done == fused.Keys;
    assert forall i :: 0 <= i < |s| ==> s[i] in s;
    SortedDescends(order, s);
  }

  lemma NothingInOrder(order: seq<string>)
    ensures Falling([]) && DistinctIds([]) && Stable(order, [])
  {
  }

  lemma FirstBefore(order: seq<string>, k: nat, a: string, b: string)
    requires k <= |order| && a in order[..k] && b !in order[..k]
    ensures At(order, a) < At(order, b)
  {
  }

  lemma SortedDescends(order: seq<string>, s: seq<(string, real)>)
    requires Falling(s) && DistinctIds(s) && Stable(order, s)
    ensures forall i, j :: 0 <= i < j < |s| ==> Ahead(order, s[i], s[j]) && s[i].0 != s[j].0
  {
    hide At;
  }

  /** The length of a Python slice of `n` entries up to `top`; a negative bound counts from the end. */
  function Length(n: nat, top: int): (r: nat)
    ensures r <= n
  {
    if top >= n then n else if top >= 0 then top else Max(n + top, 0)
  }

  function UpTo<T>(s: seq<T>, top: int): seq<T> { s[..Length(|s|, top)] }

  /** The best of the fused chunks: every one with the sum of its single-query scores, highest first and those of one score
      in the order given, as many as asked for, and nothing left out is ahead of anything kept. */
  ghost predicate BestOf(s: seq<(string, real)>, chunks: seq<string>, topK: int, order: seq<string>, bm25: seq<seq<string>>,
                         dense: seq<seq<string>>, bw: real, dw: real, k: nat)
    requires |bm25| == |dense|
  {
    && (forall i, j :: 0 <= i < j < |s| ==> Ahead(order, s[i], s[j]) && s[i].0 != s[j].0)
    && (forall i :: 0 <= i < |s| ==> s[i].0 in chunks && s[i].1 == SumOfSingles(bm25, dense, bw, dw, k, s[i].0))
    && (forall c, i :: c in chunks && 0 <= i < |s| && (forall j :: 0 <= j < |s| ==> s[j].0 != c) ==>
          Ahead(order, s[i], (c, SumOfSingles(bm25, dense, bw, dw, k, c))))
    && |s| == (if topK >= |chunks| then |Ids(chunks)| else if topK >= 0 then Min(topK, |Ids(chunks)|)
               else Max(|Ids(chunks)| + topK, 0))
  }

  function Ids(chunks: seq<string>): set<string> { set c | c in chunks }

  /** `filter_multi_query`: one BM25 and one dense order per query, sources without a positive weight left out.
      `None` is the `ValueError`. */
  method FilterMultiQuery(chunks: seq<string>, bm25: seq<seq<string>>, dense: seq<seq<string>>, topK: int,
                          bw: real, dw: real, k: nat)
    returns (best: Option<seq<(string, real)>>)
    requires |bm25| == |dense| && OrdersOf(chunks, bm25) && OrdersOf(chunks, dense)
    ensures best.None? <==> chunks != [] && (|bm25| == 0 || (bw <= 0.0 && dw <= 0.0))
    ensures best.Some? && chunks == [] ==> best.value == []
    ensures best.Some? && chunks != [] ==>
              var b, d := if bw > 0.0 then bw else 0.0, if dw > 0.0 then dw else 0.0;
              BestOf(best.value, chunks, topK, if bw > 0.0 then bm25[0] else dense[0], bm25, dense, b, d, k)
  {
    hide SumOfSingles, Descending, UpTo, BestOf, At;
    if chunks == [] {
      return Some([]);
    }
    if |bm25| == 0 || (bw <= 0.0 && dw <= 0.0) {
      return None;
    }
    var fused := FuseQueries(chunks, bm25, dense, bw, dw, k);
    // The first ranking that is used lists every chunk and so fills the map in its order.
    var order := if bw > 0.0 then bm25[0] else dense[0];
    var sorted := SortByScore(fused, order);
    var kept := if topK < |chunks| then UpTo(sorted, topK) else sorted;
    ghost var b, d := if bw > 0.0 then bw else 0.0, if dw > 0.0 then dw else 0.0;
    CutIsBest(kept, sorted, fused, chunks, topK, order, bm25, dense, b, d, k);
    return Some(kept);
  }

  lemma CutIsBest(kept: seq<(string, real)>, sorted: seq<(string, real)>, fused: map<string, real>, chunks: seq<string>,
                  topK: int, order: seq<string>, bm25: seq<seq<string>>, dense: seq<seq<string>>, bw: real, dw: real, k: nat)
    requires |bm25| == |dense| && Descending(sorted, fused, order)
    requires kept == if topK < |chunks| then UpTo(sorted, topK) else sorted
    requires forall c :: c in fused <==> c in chunks
    requires forall c :: c in chunks ==> ScoreIn(fused, c) == SumOfSingles(bm25, dense, bw, dw, k, c)
    ensures BestOf(kept, chunks, topK, order, bm25, dense, bw, dw, k)
  {
    hide SumOfSingles, At, Ahead, Descending;
    SortedSize(sorted, fused, order, chunks);
    IdsAtMost(chunks);
    assert kept <= sorted;
    KeptAhead(kept, sorted, fused, order);
  }

  lemma SortedSize(sorted: seq<(string, real)>, fused: map<string, real>, order: seq<string>, chunks: seq<string>)
    requires Descending(sorted, fused, order) && forall c :: c in fused <==> c in chunks
    ensures |sorted| == |Ids(chunks)|
  {
    hide At, Ahead;
    assert fused.Keys == Ids(chunks);
    assert |fused| == |fused.Keys|;
  }

  /** What a prefix of the sorted entries keeps, in order, and ahead of all it leaves out. */
  lemma KeptAhead(kept: seq<(string, real)>, sorted: seq<(string, real)>, fused: map<string, real>, order: seq<string>)
    requires Descending(sorted, fused, order) && kept <= sorted
    ensures forall i, j :: 0 <= i < j < |kept| ==> Ahead(order, kept[i], kept[j]) && kept[i].0 != kept[j].0
    ensures forall i :: 0 <= i < |kept| ==> kept[i].0 in fused && kept[i].1 == fused[kept[i].0]
    ensures forall c, i :: c in fused && 0 <= i < |kept| && (forall j :: 0 <= j < |kept| ==> kept[j].0 != c) ==>
              Ahead(order, kept[i], (c, fused[c]))
  {
    hide At, Ahead;
    forall c, i | c in fused && 0 <= i < |kept| && (forall j :: 0 <= j < |kept| ==> kept[j].0 != c)
      ensures Ahead(order, kept[i], (c, fused[c]))
    {
      var j := Position(sorted, fused, order, c);
      assert j >= |kept|;
    }
  }

  /** A listing of as many different entries as there are has every one of them. */
  lemma Position(sorted: seq<(string, real)>, fused: map<string, real>, order: seq<string>, c: string) returns (j: nat)
    requires Descending(sorted, fused, order) && c in fused
    ensures j < |sorted| && sorted[j] == (c, fused[c])
  {
    hide At, Ahead;
    ListedCount(sorted, fused);
    SubsetOfSize(Listed(sorted), fused.Keys);
    j := IndexOf(sorted, c);
  }

  function Listed(s: seq<(string, real)>): set<string> {
    if s == [] then {} else Listed(s[..|s| - 1]) + {s[|s| - 1].0}
  }

  lemma {:induction false} IndexOf(s: seq<(string, real)>, c: string) returns (j: nat)
    requires c in Listed(s)
    ensures j < |s| && s[j].0 == c
    decreases |s|
  {
    var k := |s| - 1;
    if s[k].0 == c {
      j := k;
    } else {
      j := IndexOf(s[..k], c);
    }
  }

  lemma {:induction false} ListedCount(s: seq<(string, real)>, fused: map<string, real>)
    requires forall i, j :: 0 <= i < j < |s| ==> s[i].0 != s[j].0
    requires forall i :: 0 <= i < |s| ==> s[i].0 in fused
    ensures |Listed(s)| == |s| && Listed(s) <= fused.Keys
    decreases |s|
  {
    if s != [] {
      var k := |s| - 1;
      ListedCount(s[..k], fused);
      NotListed(s[..k], s[k].0);
    }
  }

  lemma {:induction false} NotListed(s: seq<(string, real)>, c: string)
    requires forall i :: 0 <= i < |s| ==> s[i].0 != c
    ensures c !in Listed(s)
    decreases |s|
  {
    if s != [] {
      NotListed(s[..|s| - 1], c);
    }
  }

  lemma SubsetOfSize(a: set<string>, b: set<string>)
    requires a <= b && |a| == |b|
    ensures a == b
  {
    assert b == a + (b - a);
    assert |b - a| == 0;
  }

  lemma {:induction false} IdsAtMost(chunks: seq<string>)
    ensures |Ids(chunks)| <= |chunks|
    decreases |chunks|
  {
    if chunks == [] {
      assert Ids(chunks) == {};
    } else {
      var k := |chunks| - 1;
      IdsAtMost(chunks[..k]);
      assert Ids(chunks) == Ids(chunks[..k]) + {chunks[k]};
    }
  }

  lemma {:induction false} ZeroWeight<I>(rankings: seq<seq<I>>, c: I, k: nat)
    ensures SourceScore(rankings, c, 0.0, k) == 0.0
    decreases |rankings|
  {
    if rankings != [] {
      var last := rankings[|rankings| - 1];
      ZeroWeight(rankings[..|rankings| - 1], c, k);
      ZeroRanking(last, |last|, c, k);
    }
  }

  lemma {:induction false} ZeroRanking<I>(r: seq<I>, n: nat, c: I, k: nat)
    requires n <= |r|
    ensures RankingScore(r, n, c, 0.0, k) == 0.0
    decreases n
  {
    if n > 0 {
      ZeroRanking(r, n - 1, c, k);
    }
  }
}
