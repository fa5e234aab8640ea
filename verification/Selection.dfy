/** From a fused ranking to the chunks returned: cap, filters, greedy take, re-trim, paging. */
module Selection {
  import opened Prelude
  import Chunker

  /** A resolvable chunk: its id, token count, and doc-root key if its file is known. */
  datatype Candidate = Candidate(id: nat, tokens: nat, key: Option<string>)

  /** `_chunk_token_count`: the recorded count, else an estimate; never zero. */
  function ChunkTokenCount(recorded: int, textLength: nat, charsPerToken: nat): (r: nat)
    requires charsPerToken >= 1
    ensures r >= 1
    ensures r == recorded || (recorded <= 0 && r == Chunker.TokenCount(textLength, charsPerToken))
  {
    if recorded > 0 then recorded else Chunker.TokenCount(textLength, charsPerToken)
  }

  // ---------------------------------------------------------------- the greedy take

  /** The take loop from some point on: `seen` keys are spent, `kept` chunks are in, `budget` tokens are left. */
  function TakeFrom(ranked: seq<Candidate>, suppress: set<nat>, dedup: bool, budget: int, maxResults: Option<int>,
                    seen: set<string>, kept: nat): seq<Candidate>
  {
    if ranked == [] then []
    else
      var c, rest := ranked[0], ranked[1..];
      if c.id in suppress then TakeFrom(rest, suppress, dedup, budget, maxResults, seen, kept)
      else if dedup && c.key.Some? && c.key.value in seen then
        TakeFrom(rest, suppress, dedup, budget, maxResults, seen, kept)
      else
        var seen' := if dedup && c.key.Some? then seen + {c.key.value} else seen;
        if c.tokens > budget && kept > 0 then []
        else if maxResults.Some? && kept + 1 >= maxResults.value then [c]
        else [c] + TakeFrom(rest, suppress, dedup, budget - c.tokens, maxResults, seen', kept + 1)
  }

  function Take(ranked: seq<Candidate>, suppress: set<nat>, dedup: bool, maxTokens: int, maxResults: Option<int>)
    : seq<Candidate>
  {
    TakeFrom(ranked, suppress, dedup, maxTokens, maxResults, {}, 0)
  }

  /** One turn of the loop. */
  lemma TakeUnfold(c: Candidate, rest: seq<Candidate>, suppress: set<nat>, dedup: bool, budget: int,
                   maxResults: Option<int>, seen: set<string>, kept: nat)
    ensures TakeFrom([c] + rest, suppress, dedup, budget, maxResults, seen, kept)
            == if c.id in suppress || (dedup && c.key.Some? && c.key.value in seen) then
                 TakeFrom(rest, suppress, dedup, budget, maxResults, seen, kept)
               else if c.tokens > budget && kept > 0 then []
               else if maxResults.Some? && kept + 1 >= maxResults.value then [c]
               else [c] + TakeFrom(rest, suppress, dedup, budget - c.tokens, maxResults,
                                   if dedup && c.key.Some? then seen + {c.key.value} else seen, kept + 1)
  {
    assert ([c] + rest)[1..] == rest;
  }

  lemma TakeNothing(suppress: set<nat>, dedup: bool, budget: int, maxResults: Option<int>, seen: set<string>, kept: nat)
    ensures TakeFrom([], suppress, dedup, budget, maxResults, seen, kept) == []
  {
  }

  method TakeLoop(ranked: seq<Candidate>, suppress: set<nat>, dedup: bool, maxTokens: int, maxResults: Option<int>)
    returns (kept: seq<Candidate>)
    ensures kept == Take(ranked, suppress, dedup, maxTokens, maxResults)
  {
    hide TakeFrom;
    kept := [];
    var budget, seen := maxTokens, {};
    assert ranked[0..] == ranked;
    ghost var whole := Take(ranked, suppress, dedup, maxTokens, maxResults);
    for i := 0 to |ranked|
      invariant whole == kept + TakeFrom(ranked[i..], suppress, dedup, budget, maxResults, seen, |kept|)
    {
      var c := ranked[i];
      assert ranked[i..] == [c] + ranked[i + 1..];
      TakeUnfold(c, ranked[i + 1..], suppress, dedup, budget, maxResults, seen, |kept|);
      if c.id in suppress {
        continue;
      }
      if dedup && c.key.Some? {
        if c.key.value in seen {
          continue;
        }
        seen := seen + {c.key.value};
      }
      if c.tokens > budget && kept != [] {
        return;
      }
      kept := kept + [c];
      budget := budget - c.tokens;
      if maxResults.Some? && |kept| >= maxResults.value {
        return;
      }
    }
    TakeNothing(suppress, dedup, budget, maxResults, seen, |kept|);
  }

  // ---------------------------------------------------------------- what is kept

  /** `a` can be obtained from `b` by leaving elements out. */
  ghost predicate Subsequence<T>(a: seq<T>, b: seq<T>) {
    if a == [] then true
    else if b == [] then false
    else (a[0] == b[0] && Subsequence(a[1..], b[1..])) || Subsequence(a, b[1..])
  }

  function Total(cs: seq<Candidate>): nat {
    if cs == [] then 0 else cs[0].tokens + Total(cs[1..])
  }

  ghost predicate FreshKeys(cs: seq<Candidate>, seen: set<string>) {
    && (forall i :: 0 <= i < |cs| && cs[i].key.Some? ==> cs[i].key.value !in seen)
    && (forall i, j :: 0 <= i < j < |cs| && cs[i].key.Some? && cs[j].key.Some? ==> cs[i].key != cs[j].key)
  }

  /** The kept chunks are a subsequence of the ranking and none of them is suppressed. */
  lemma {:induction false} TakeFilters(ranked: seq<Candidate>, suppress: set<nat>, dedup: bool, budget: int,
                                       maxResults: Option<int>, seen: set<string>, kept: nat)
    ensures var r := TakeFrom(ranked, suppress, dedup, budget, maxResults, seen, kept);
            && Subsequence(r, ranked)
            && (forall c :: c in r ==> c in ranked && c.id !in suppress)
            && (dedup ==> FreshKeys(r, seen))
            && (maxResults.Some? ==> kept + |r| <= Max(maxResults.value, kept + 1))
    decreases |ranked|
  {
    if ranked != [] {
      var c, rest := ranked[0], ranked[1..];
      if c.id in suppress || (dedup && c.key.Some? && c.key.value in seen) {
        TakeFilters(rest, suppress, dedup, budget, maxResults, seen, kept);
      } else {
        var seen' := if dedup && c.key.Some? then seen + {c.key.value} else seen;
        TakeFilters(rest, suppress, dedup, budget - c.tokens, maxResults, seen', kept + 1);
      }
    }
  }

  /** Past the first chunk the take never exceeds the budget it has left. */
  lemma {:induction false} TakeWithinBudget(ranked: seq<Candidate>, suppress: set<nat>, dedup: bool, budget: int,
                                            maxResults: Option<int>, seen: set<string>, kept: nat)
    requires kept > 0
    ensures var r := TakeFrom(ranked, suppress, dedup, budget, maxResults, seen, kept);
            r != [] ==> Total(r) <= budget
    decreases |ranked|
  {
    if ranked != [] {
      var c, rest := ranked[0], ranked[1..];
      if c.id in suppress || (dedup && c.key.Some? && c.key.value in seen) {
        TakeWithinBudget(rest, suppress, dedup, budget, maxResults, seen, kept);
      } else {
        var seen' := if dedup && c.key.Some? then seen + {c.key.value} else seen;
        TakeWithinBudget(rest, suppress, dedup, budget - c.tokens, maxResults, seen', kept + 1);
        var r := TakeFrom(ranked, suppress, dedup, budget, maxResults, seen, kept);
        if |r| > 1 {
          assert r[1..] == TakeFrom(rest, suppress, dedup, budget - c.tokens, maxResults, seen', kept + 1);
        }
      }
    }
  }

  /** The whole result fits the token budget, or is a single chunk. */
  lemma {:induction false} TakeBudget(ranked: seq<Candidate>, suppress: set<nat>, dedup: bool, maxTokens: int,
                                      maxResults: Option<int>, seen: set<string>)
    ensures var r := TakeFrom(ranked, suppress, dedup, maxTokens, maxResults, seen, 0);
            |r| > 1 ==> Total(r) <= maxTokens
    decreases |ranked|
  {
    if ranked != [] {
      var c, rest := ranked[0], ranked[1..];
      if c.id in suppress || (dedup && c.key.Some? && c.key.value in seen) {
        TakeBudget(rest, suppress, dedup, maxTokens, maxResults, seen);
      } else {
        var seen' := if dedup && c.key.Some? then seen + {c.key.value} else seen;
        TakeWithinBudget(rest, suppress, dedup, maxTokens - c.tokens, maxResults, seen', 1);
        var r := TakeFrom(ranked, suppress, dedup, maxTokens, maxResults, seen, 0);
        if |r| > 1 {
          assert r[1..] == TakeFrom(rest, suppress, dedup, maxTokens - c.tokens, maxResults, seen', 1);
        }
      }
    }
  }

  /** What passes the suppress and the dedup gate, tokens and counts aside. */
  function Passing(ranked: seq<Candidate>, suppress: set<nat>, dedup: bool, seen: set<string>): seq<Candidate> {
    if ranked == [] then []
    else
      var c, rest := ranked[0], ranked[1..];
      if c.id in suppress || (dedup && c.key.Some? && c.key.value in seen) then Passing(rest, suppress, dedup, seen)
      else [c] + Passing(rest, suppress, dedup, if dedup && c.key.Some? then seen + {c.key.value} else seen)
  }

  /** Does a candidate that is not suppressed come before `i` with the same doc root? */
  ghost predicate RootTaken(ranked: seq<Candidate>, suppress: set<nat>, seen: set<string>, i: nat)
    requires i < |ranked| && ranked[i].key.Some?
  {
    ranked[i].key.value in seen
    || exists j :: 0 <= j < i && ranked[j].id !in suppress && ranked[j].key == ranked[i].key
  }

  /** A candidate passes if and only if it is not suppressed and, under dedup, is the first of its doc root. */
  lemma {:induction false} PassingExact(ranked: seq<Candidate>, suppress: set<nat>, dedup: bool, seen: set<string>, i: nat)
    requires Distinct(ranked) && i < |ranked|
    ensures ranked[i] in Passing(ranked, suppress, dedup, seen)
            <==> ranked[i].id !in suppress && (dedup && ranked[i].key.Some? ==> !RootTaken(ranked, suppress, seen, i))
    decreases |ranked|
  {
    var c, rest := ranked[0], ranked[1..];
    var passes := !(c.id in suppress || (dedup && c.key.Some? && c.key.value in seen));
    var seen' := if passes && dedup && c.key.Some? then seen + {c.key.value} else seen;
    PassingMembers(rest, suppress, dedup, seen');
    assert c !in rest;
    if i > 0 {
      PassingExact(rest, suppress, dedup, seen', i - 1);
      if dedup && ranked[i].key.Some? {
        RootTakenRest(ranked, suppress, seen, seen', i);
      }
    }
  }

  lemma {:induction false} PassingMembers(ranked: seq<Candidate>, suppress: set<nat>, dedup: bool, seen: set<string>)
    ensures forall c :: c in Passing(ranked, suppress, dedup, seen) ==> c in ranked
    decreases |ranked|
  {
    if ranked != [] {
      var c, rest := ranked[0], ranked[1..];
      PassingMembers(rest, suppress, dedup, seen);
      PassingMembers(rest, suppress, dedup, if dedup && c.key.Some? then seen + {c.key.value} else seen);
    }
  }

  lemma RootTakenRest(ranked: seq<Candidate>, suppress: set<nat>, seen: set<string>, seen': set<string>, i: nat)
    requires 0 < i < |ranked| && ranked[i].key.Some?
    requires seen' == if ranked[0].id !in suppress && ranked[0].key.Some? then seen + {ranked[0].key.value} else seen
    ensures RootTaken(ranked[1..], suppress, seen', i - 1) <==> RootTaken(ranked, suppress, seen, i)
  {
    var rest := ranked[1..];
    if RootTaken(ranked, suppress, seen, i) && ranked[i].key.value !in seen {
      var j :| 0 <= j < i && ranked[j].id !in suppress && ranked[j].key == ranked[i].key;
      if j > 0 {
        assert rest[j - 1] == ranked[j];
      }
    }
    if exists j :: 0 <= j < i - 1 && rest[j].id !in suppress && rest[j].key == rest[i - 1].key {
      var j :| 0 <= j < i - 1 && rest[j].id !in suppress && rest[j].key == rest[i - 1].key;
      assert ranked[j + 1] == rest[j];
    }
  }

  /** The take is greedy: it keeps what passes the gates, in order, and stops early only when the asked number
      is reached or when the next one would overflow the budget with something already kept. */
  lemma {:induction false} TakeIsGreedy(ranked: seq<Candidate>, suppress: set<nat>, dedup: bool, budget: int,
                                        maxResults: Option<int>, seen: set<string>, kept: nat)
    ensures var f, r := Passing(ranked, suppress, dedup, seen),
                        TakeFrom(ranked, suppress, dedup, budget, maxResults, seen, kept);
            && r <= f
            && (r != f ==> || (r != [] && maxResults.Some? && kept + |r| >= maxResults.value)
                           || (kept + |r| > 0 && Total(f[..|r| + 1]) > budget))
    decreases |ranked|
  {
    if ranked != [] {
      var c, rest := ranked[0], ranked[1..];
      if c.id in suppress || (dedup && c.key.Some? && c.key.value in seen) {
        TakeIsGreedy(rest, suppress, dedup, budget, maxResults, seen, kept);
      } else {
        var seen' := if dedup && c.key.Some? then seen + {c.key.value} else seen;
        TakeIsGreedy(rest, suppress, dedup, budget - c.tokens, maxResults, seen', kept + 1);
        GreedyCons(c, Passing(rest, suppress, dedup, seen'),
                   TakeFrom(rest, suppress, dedup, budget - c.tokens, maxResults, seen', kept + 1));
      }
    }
  }

  lemma GreedyCons(c: Candidate, f: seq<Candidate>, r: seq<Candidate>)
    requires r <= f
    ensures [c] + r <= [c] + f && (r != f ==> [c] + r != [c] + f)
    ensures r != f ==> Total(([c] + f)[..|r| + 2]) == c.tokens + Total(f[..|r| + 1])
    ensures Total(([c] + f)[..1]) == c.tokens
  {
    assert ([c] + f)[..1] == [c] && [c][1..] == [];
    if r != f {
      assert |r| < |f|;
      var t := ([c] + f)[..|r| + 2];
      assert t[0] == c && t[1..] == f[..|r| + 1];
    }
  }

  // ---------------------------------------------------------------- the second trim

  /** The response handler trims the searcher's result once more, by its own loop. */
  function RetrimFrom(cs: seq<Candidate>, maxTokens: int, maxResults: Option<int>, running: int, kept: nat): seq<Candidate> {
    if cs == [] then []
    else if maxResults.Some? && kept >= maxResults.value then []
    else if running + cs[0].tokens > maxTokens && kept > 0 then []
    else [cs[0]] + RetrimFrom(cs[1..], maxTokens, maxResults, running + cs[0].tokens, kept + 1)
  }

  lemma RetrimUnfold(c: Candidate, rest: seq<Candidate>, maxTokens: int, maxResults: Option<int>, running: int, kept: nat)
    ensures RetrimFrom([c] + rest, maxTokens, maxResults, running, kept)
            == if maxResults.Some? && kept >= maxResults.value then []
               else if running + c.tokens > maxTokens && kept > 0 then []
               else [c] + RetrimFrom(rest, maxTokens, maxResults, running + c.tokens, kept + 1)
  {
    assert ([c] + rest)[1..] == rest;
  }

  lemma RetrimNothing(maxTokens: int, maxResults: Option<int>, running: int, kept: nat)
    ensures RetrimFrom([], maxTokens, maxResults, running, kept) == []
  {
  }

  method Retrim(cs: seq<Candidate>, maxTokens: int, maxResults: Option<int>) returns (kept: seq<Candidate>)
    ensures kept == RetrimFrom(cs, maxTokens, maxResults, 0, 0)
  {
    hide RetrimFrom;
    kept := [];
    var running := 0;
    assert cs[0..] == cs;
    ghost var whole := RetrimFrom(cs, maxTokens, maxResults, 0, 0);
    for i := 0 to |cs|
      invariant whole == kept + RetrimFrom(cs[i..], maxTokens, maxResults, running, |kept|)
    {
      assert cs[i..] == [cs[i]] + cs[i + 1..];
      RetrimUnfold(cs[i], cs[i + 1..], maxTokens, maxResults, running, |kept|);
      if maxResults.Some? && |kept| >= maxResults.value {
        return;
      }
      if running + cs[i].tokens > maxTokens && kept != [] {
        return;
      }
      kept := kept + [cs[i]];
      running := running + cs[i].tokens;
    }
    RetrimNothing(maxTokens, maxResults, running, |kept|);
  }

  lemma {:induction false} RetrimKeeps(cs: seq<Candidate>, maxTokens: int, maxResults: Option<int>, running: int, kept: nat)
    requires kept > 0 ==> cs == [] || running + Total(cs) <= maxTokens
    requires kept == 0 ==> |cs| <= 1 || running + Total(cs) <= maxTokens
    requires maxResults.Some? ==> cs == [] || kept + |cs| <= maxResults.value
    ensures RetrimFrom(cs, maxTokens, maxResults, running, kept) == cs
    decreases |cs|
  {
    if cs != [] {
      RetrimKeeps(cs[1..], maxTokens, maxResults, running + cs[0].tokens, kept + 1);
    }
  }

  /** What the second trim keeps of any list: a prefix no longer than asked, within the budget but for its first chunk, and
      cut short only where the next chunk would break one of the two. */
  lemma {:induction false} RetrimIsGreedy(cs: seq<Candidate>, maxTokens: int, maxResults: Option<int>, running: int, kept: nat)
    ensures var r := RetrimFrom(cs, maxTokens, maxResults, running, kept);
            && r <= cs
            && (maxResults.Some? ==> |r| == 0 || kept + |r| <= maxResults.value)
            && (kept + |r| > 1 && |r| > 0 ==> running + Total(r) <= maxTokens)
            && (r != cs ==> || (maxResults.Some? && kept + |r| >= maxResults.value)
                            || (kept + |r| > 0 && running + Total(cs[..|r| + 1]) > maxTokens))
    decreases |cs|
  {
    if cs != [] {
      var c, rest := cs[0], cs[1..];
      var r := RetrimFrom(rest, maxTokens, maxResults, running + c.tokens, kept + 1);
      RetrimIsGreedy(rest, maxTokens, maxResults, running + c.tokens, kept + 1);
      assert cs == [c] + rest;
      GreedyCons(c, rest, r);
      assert ([c] + r)[1..] == r;
    }
  }

  /** Trimming a search result a second time changes nothing, unless it was asked for no results at all
      and found one: the searcher keeps one chunk for `max_results` below 1, the handler none. */
  lemma RetrimIsIdentityExact(ranked: seq<Candidate>, suppress: set<nat>, dedup: bool, maxTokens: int, maxResults: Option<int>)
    ensures var r := Take(ranked, suppress, dedup, maxTokens, maxResults);
            RetrimFrom(r, maxTokens, maxResults, 0, 0) == r
            <==> (maxResults.None? || maxResults.value >= 1 || r == [])
  {
    var r := Take(ranked, suppress, dedup, maxTokens, maxResults);
    TakeFilters(ranked, suppress, dedup, maxTokens, maxResults, {}, 0);
    TakeBudget(ranked, suppress, dedup, maxTokens, maxResults, {});
    if maxResults.None? || maxResults.value >= 1 || r == [] {
      RetrimKeeps(r, maxTokens, maxResults, 0, 0);
    }
  }

  // ---------------------------------------------------------------- filter, then take

  function SetOf(ids: seq<nat>): set<nat> { set x | x in ids }

  /** The ids not suppressed, in order. */
  function Survivors(ids: seq<nat>, suppress: set<nat>): seq<nat> {
    if ids == [] then []
    else (if ids[0] in suppress then [] else [ids[0]]) + Survivors(ids[1..], suppress)
  }

  function FirstOf(ids: seq<nat>, m: nat): seq<nat> {
    ids[..Min(m, |ids|)]
  }

  /** The simple specification: drop what was shown, keep the first `m`. */
  function FilterThenTake(ids: seq<nat>, suppress: set<nat>, m: nat): seq<nat> {
    FirstOf(Survivors(ids, suppress), m)
  }

  /** How much of the fused list is looked at. */
  function Cap(maxResults: Option<int>, topN: int, suppressed: nat): nat {
    Max(Min((if maxResults.Some? then maxResults.value else topN) + suppressed, topN), 1)
  }

  /** The chunks one search looks at: the fused list cut at the cap, without the ids that do not resolve. */
  function Considered(fused: seq<nat>, chunks: map<nat, Candidate>, topN: int, maxResults: Option<int>,
                      suppress: set<nat>): seq<Candidate>
  {
    Resolved(FirstOf(fused, Cap(maxResults, topN, |suppress|)), chunks)
  }

  /** What one search returns. */
  function Found(fused: seq<nat>, chunks: map<nat, Candidate>, topN: int, maxResults: Option<int>,
                 suppress: set<nat>, dedup: bool, maxTokens: int): seq<Candidate>
  {
    Take(Considered(fused, chunks, topN, maxResults, suppress), suppress, dedup, maxTokens, maxResults)
  }

  function Resolved(ids: seq<nat>, chunks: map<nat, Candidate>): seq<Candidate> {
    if ids == [] then []
    else (if ids[0] in chunks then [chunks[ids[0]]] else []) + Resolved(ids[1..], chunks)
  }

  function Ids(cs: seq<Candidate>): (r: seq<nat>)
    ensures |r| == |cs|
  {
    if cs == [] then [] else [cs[0].id] + Ids(cs[1..])
  }

  /** The ids that resolve to no chunk. */
  function Missing(ids: seq<nat>, chunks: map<nat, Candidate>): set<nat> { SetOf(ids) - chunks.Keys }

  lemma SurvivorsCons(x: nat, rest: seq<nat>, suppress: set<nat>)
    ensures Survivors([x] + rest, suppress) == if x in suppress then Survivors(rest, suppress) else [x] + Survivors(rest, suppress)
  {
    assert ([x] + rest)[1..] == rest;
  }

  lemma ResolvedCons(x: nat, rest: seq<nat>, chunks: map<nat, Candidate>)
    ensures Resolved([x] + rest, chunks) == if x in chunks then [chunks[x]] + Resolved(rest, chunks) else Resolved(rest, chunks)
  {
    assert ([x] + rest)[1..] == rest;
  }

  /** Ids that do not resolve are skipped as if they had been suppressed. */
  lemma {:induction false} ResolvedExact(ids: seq<nat>, chunks: map<nat, Candidate>, hidden: set<nat>)
    requires forall x :: x in ids ==> (x in chunks <==> x !in hidden)
    requires forall x :: x in ids && x in chunks ==> chunks[x].id == x
    ensures Ids(Resolved(ids, chunks)) == Survivors(ids, hidden)
    ensures Resolved(ids, chunks) == Resolved(Survivors(ids, hidden), chunks)
    decreases |ids|
  {
    if ids != [] {
      hide Resolved, Survivors, Ids;
      var x, rest := ids[0], ids[1..];
      assert ids == [x] + rest;
      ResolvedExact(rest, chunks, hidden);
      SurvivorsCons(x, rest, hidden);
      ResolvedCons(x, rest, chunks);
      if x in chunks {
        IdsCons(chunks[x], Resolved(rest, chunks));
        ResolvedCons(x, Survivors(rest, hidden), chunks);
      }
    }
  }

  lemma {:induction false} SurvivorsTwice(ids: seq<nat>, a: set<nat>, b: set<nat>)
    ensures Survivors(Survivors(ids, a), b) == Survivors(ids, a + b)
    ensures forall x :: x in Survivors(ids, a) ==> x in ids && x !in a
    decreases |ids|
  {
    if ids != [] {
      hide Survivors;
      var x, rest := ids[0], ids[1..];
      assert ids == [x] + rest;
      SurvivorsTwice(rest, a, b);
      SurvivorsCons(x, rest, a);
      SurvivorsCons(x, rest, a + b);
      SurvivorsCons(x, Survivors(rest, a), b);
    }
  }

  lemma {:induction false} SurvivorsConcat(a: seq<nat>, b: seq<nat>, suppress: set<nat>)
    ensures Survivors(a + b, suppress) == Survivors(a, suppress) + Survivors(b, suppress)
    decreases |a|
  {
    if a == [] {
      assert a + b == b;
    } else {
      assert (a + b)[1..] == a[1..] + b;
      SurvivorsConcat(a[1..], b, suppress);
    }
  }

  lemma FirstOfCons(x: nat, s: seq<nat>, m: nat)
    requires m >= 1
    ensures FirstOf([x] + s, m) == [x] + FirstOf(s, m - 1)
    ensures FirstOf(s, 0) == []
  {
  }

  lemma IdsCons(c: Candidate, cs: seq<Candidate>)
    ensures Ids([c] + cs) == [c.id] + Ids(cs)
  {
    assert ([c] + cs)[1..] == cs;
  }

  /** With `kept` chunks in already, `taken` is a prefix of the page: one at least if there were none, and the whole page if
      and only if its tokens are within the budget, or the first chunk of all is all it has. */
  predicate PartOfPage(taken: seq<nat>, page: seq<nat>, tokens: nat, budget: int, kept: nat) {
    && taken <= page && (kept == 0 && page != [] ==> taken != [])
    && (taken == page <==> tokens <= budget || page == [] || (kept == 0 && |page| == 1))
  }

  lemma OneMoreTaken(x: nat, cost: nat, taken: seq<nat>, page: seq<nat>, tokens: nat, budget: int, kept: nat)
    requires PartOfPage(taken, page, tokens, budget - cost, kept + 1)
    requires (page == [] ==> tokens == 0) && (cost <= budget || kept == 0)
    ensures PartOfPage([x] + taken, [x] + page, cost + tokens, budget, kept)
  {
    assert ([x] + taken)[1..] == taken && ([x] + page)[1..] == page;
  }

  /** Without dedup the take is such a part of the first survivors. */
  lemma {:induction false} TakeIsFilterThenTake(ids: seq<nat>, chunks: map<nat, Candidate>, suppress: set<nat>,
                                                budget: int, m: nat, seen: set<string>, kept: nat)
    requires forall x :: x in ids ==> x in chunks && chunks[x].id == x
    requires m > kept
    ensures var page := FilterThenTake(ids, suppress, m - kept);
            PartOfPage(Ids(TakeFrom(Resolved(ids, chunks), suppress, false, budget, Some(m), seen, kept)),
                       page, Total(Resolved(page, chunks)), budget, kept)
    decreases |ids|
  {
    hide FirstOf, TakeFrom, Total, PartOfPage, Resolved, Ids, Survivors, FilterThenTake;
    if ids == [] {
      NothingToTake(chunks, suppress, budget, m, seen, kept);
    } else {
      var x, rest := ids[0], ids[1..];
      assert ids == [x] + rest;
      var tokens := chunks[x].tokens;
      TakeIds(x, rest, chunks, suppress, budget, m, seen, kept);
      PageCons(x, rest, suppress, m - kept);
      if x in suppress {
        TakeIsFilterThenTake(rest, chunks, suppress, budget, m, seen, kept);
      } else {
        var page := FilterThenTake(rest, suppress, m - kept - 1);
        TotalCons(x, page, chunks);
        if tokens > budget && kept > 0 {
          NothingTaken([x] + page, tokens + Total(Resolved(page, chunks)), budget, kept);
        } else if kept + 1 >= m {
          TotalOfNone(chunks);
          NothingLeft(budget - tokens, kept + 1);
          OneMoreTaken(x, tokens, [], [], 0, budget, kept);
          assert [x] + [] == [x];
        } else {
          TakeIsFilterThenTake(rest, chunks, suppress, budget - tokens, m, seen, kept + 1);
          var later := TakeFrom(Resolved(rest, chunks), suppress, false, budget - tokens, Some(m), seen, kept + 1);
          TotalOfNone(chunks);
          OneMoreTaken(x, tokens, Ids(later), page, Total(Resolved(page, chunks)), budget, kept);
        }
      }
    }
  }

  lemma NothingToTake(chunks: map<nat, Candidate>, suppress: set<nat>, budget: int, m: nat, seen: set<string>, kept: nat)
    requires m > kept
    ensures var page := FilterThenTake([], suppress, m - kept);
            PartOfPage(Ids(TakeFrom(Resolved([], chunks), suppress, false, budget, Some(m), seen, kept)),
                       page, Total(Resolved(page, chunks)), budget, kept)
  {
    TotalOfNone(chunks);
  }

  lemma PageCons(x: nat, rest: seq<nat>, suppress: set<nat>, n: nat)
    requires n >= 1
    ensures FilterThenTake([x] + rest, suppress, n)
            == if x in suppress then FilterThenTake(rest, suppress, n) else [x] + FilterThenTake(rest, suppress, n - 1)
    ensures FilterThenTake(rest, suppress, 0) == []
  {
    assert ([x] + rest)[1..] == rest;
    FirstOfCons(x, Survivors(rest, suppress), n);
  }

  /** One turn of the loop, in terms of ids. */
  lemma TakeIds(x: nat, rest: seq<nat>, chunks: map<nat, Candidate>, suppress: set<nat>, budget: int, m: nat,
                seen: set<string>, kept: nat)
    requires x in chunks && chunks[x].id == x
    ensures var c, cs := chunks[x], Resolved(rest, chunks);
            Ids(TakeFrom(Resolved([x] + rest, chunks), suppress, false, budget, Some(m), seen, kept))
            == if x in suppress then Ids(TakeFrom(cs, suppress, false, budget, Some(m), seen, kept))
               else if c.tokens > budget && kept > 0 then []
               else if kept + 1 >= m then [x]
               else [x] + Ids(TakeFrom(cs, suppress, false, budget - c.tokens, Some(m), seen, kept + 1))
  {
    hide TakeFrom;
    var c, cs := chunks[x], Resolved(rest, chunks);
    assert ([x] + rest)[1..] == rest;
    assert Resolved([x] + rest, chunks) == [c] + cs;
    TakeUnfold(c, cs, suppress, false, budget, Some(m), seen, kept);
    IdsCons(c, TakeFrom(cs, suppress, false, budget - c.tokens, Some(m), seen, kept + 1));
    assert Ids([c]) == [x];
  }

  lemma NothingTaken(page: seq<nat>, tokens: nat, budget: int, kept: nat)
    requires page != [] && tokens > budget && kept > 0
    ensures PartOfPage([], page, tokens, budget, kept)
  {
  }

  lemma NothingLeft(budget: int, kept: nat)
    ensures PartOfPage([], [], 0, budget, kept)
  {
  }

  lemma TotalOfNone(chunks: map<nat, Candidate>)
    ensures Total(Resolved([], chunks)) == 0
  {
  }

  lemma TotalCons(x: nat, page: seq<nat>, chunks: map<nat, Candidate>)
    requires x in chunks
    ensures Total(Resolved([x] + page, chunks)) == chunks[x].tokens + Total(Resolved(page, chunks))
  {
    assert ([x] + page)[1..] == page;
    var cs := Resolved(page, chunks);
    assert Resolved([x] + page, chunks) == [chunks[x]] + cs && ([chunks[x]] + cs)[1..] == cs;
  }

  /** A page read off the first `cap` entries. */
  function PageAt(fused: seq<nat>, suppress: set<nat>, m: nat, cap: nat): seq<nat> {
    FilterThenTake(FirstOf(fused, cap), suppress, m)
  }

  /** What a capped search returns with the other filters out of the way. */
  function PageOf(fused: seq<nat>, suppress: set<nat>, m: nat, topN: int): seq<nat> {
    PageAt(fused, suppress, m, Cap(Some(m), topN, |suppress|))
  }

  /** Its tokens are within the budget, or it is a single chunk, which is kept in any case. */
  predicate Fits(page: seq<nat>, chunks: map<nat, Candidate>, maxTokens: int) {
    Total(Resolved(page, chunks)) <= maxTokens || |page| <= 1
  }

  /** A search without dedup returns a prefix of its page, one chunk at least, and the whole page if and only if it fits. */
  lemma SearchIsPage(fused: seq<nat>, chunks: map<nat, Candidate>, topN: int, m: nat, suppress: set<nat>, maxTokens: int)
    requires m >= 1 && forall x :: x in fused ==> x in chunks && chunks[x].id == x
    ensures var found := Ids(Found(fused, chunks, topN, Some(m), suppress, false, maxTokens));
            var page := PageOf(fused, suppress, m, topN);
            && found <= page && (page != [] ==> found != [])
            && (found == page <==> Fits(page, chunks, maxTokens))
  {
    var capped := FirstOf(fused, Cap(Some(m), topN, |suppress|));
    assert forall x :: x in capped ==> x in fused;
    TakeIsFilterThenTake(capped, chunks, suppress, maxTokens, m, {}, 0);
    hide Total, Resolved;
  }

  /** No limit is a limit that is never reached. */
  lemma {:induction false} NoLimit(ranked: seq<Candidate>, suppress: set<nat>, dedup: bool, budget: int, m: nat,
                                   seen: set<string>, kept: nat)
    requires m > kept + |ranked|
    ensures TakeFrom(ranked, suppress, dedup, budget, None, seen, kept)
            == TakeFrom(ranked, suppress, dedup, budget, Some(m), seen, kept)
    decreases |ranked|
  {
    if ranked != [] {
      var c, rest := ranked[0], ranked[1..];
      NoLimit(rest, suppress, dedup, budget, m, seen, kept);
      NoLimit(rest, suppress, dedup, budget - c.tokens, m, seen, kept + 1);
      NoLimit(rest, suppress, dedup, budget - c.tokens, m, if dedup && c.key.Some? then seen + {c.key.value} else seen, kept + 1);
    }
  }

  /** A search without a limit and without dedup goes through everything down to the fusion depth: what is neither
      suppressed nor gone from the store, in order, one chunk at least, and all of it if and only if that fits the budget. */
  lemma UnlimitedSearch(fused: seq<nat>, chunks: map<nat, Candidate>, topN: int, suppress: set<nat>, maxTokens: int)
    requires forall x :: x in fused && x in chunks ==> chunks[x].id == x
    ensures var found := Ids(Found(fused, chunks, topN, None, suppress, false, maxTokens));
            var all := Survivors(FirstOf(fused, Max(topN, 1)), suppress + Missing(fused, chunks));
            && found <= all && (all != [] ==> found != [])
            && (found == all <==> Fits(all, chunks, maxTokens))
  {
    var seen := FirstOf(fused, Max(topN, 1));
    var hidden := Missing(fused, chunks);
    var known := Survivors(seen, hidden);
    assert forall x :: x in seen ==> x in fused;
    assert Cap(None, topN, |suppress|) == Max(topN, 1);
    hide TakeFrom, Total, Resolved, Survivors, FirstOf, Cap;
    ResolvedExact(seen, chunks, hidden);
    SurvivorsTwice(seen, hidden, suppress);
    assert hidden + suppress == suppress + hidden;
    var m := |known| + 1;
    var ranked := Resolved(known, chunks);
    assert |ranked| == |Ids(ranked)| == |known|;
    NoLimit(ranked, suppress, false, maxTokens, m, {}, 0);
    TakeIsFilterThenTake(known, chunks, suppress, maxTokens, m, {}, 0);
    SurvivorsAtMost(known, suppress);
    TakesAll(Survivors(known, suppress), m);
  }

  lemma TakesAll(ids: seq<nat>, m: nat)
    requires m >= |ids|
    ensures FirstOf(ids, m) == ids
  {
  }

  lemma {:induction false} SurvivorsAtMost(ids: seq<nat>, suppress: set<nat>)
    ensures |Survivors(ids, suppress)| <= |ids|
    decreases |ids|
  {
    if ids != [] {
      SurvivorsAtMost(ids[1..], suppress);
    }
  }

  /** Suppression takes away at most one entry per suppressed id. */
  lemma {:induction false} SurvivorCount(ids: seq<nat>, suppress: set<nat>)
    requires Distinct(ids)
    ensures |Survivors(ids, suppress)| + |suppress| >= |ids|
    decreases |ids|
  {
    if ids != [] {
      var x, rest := ids[0], ids[1..];
      assert x !in rest;
      if x in suppress {
        SurvivorCount(rest, suppress - {x});
        SameSurvivors(rest, suppress - {x}, suppress, x);
      } else {
        SurvivorCount(rest, suppress);
      }
    }
  }

  lemma {:induction false} SameSurvivors(ids: seq<nat>, a: set<nat>, b: set<nat>, x: nat)
    requires b == a + {x} && x !in ids
    ensures Survivors(ids, a) == Survivors(ids, b)
    decreases |ids|
  {
    if ids != [] {
      SameSurvivors(ids[1..], a, b, x);
    }
  }

  lemma FirstOfPrefix(s: seq<nat>, t: seq<nat>, m: nat)
    requires |s| >= m
    ensures FirstOf(s + t, m) == FirstOf(s, m)
  {
  }

  /** Looking far enough into a distinct list finds the same page as looking at all of it. */
  lemma PageComplete(fused: seq<nat>, suppress: set<nat>, m: nat, cap: nat)
    requires Distinct(fused) && m + |suppress| <= cap
    ensures PageAt(fused, suppress, m, cap) == FilterThenTake(fused, suppress, m)
  {
    var capped := FirstOf(fused, cap);
    if |fused| > cap {
      assert capped == fused[..cap] && fused == fused[..cap] + fused[cap..];
      hide Survivors, FirstOf;
      SurvivorsConcat(capped, fused[cap..], suppress);
      SurvivorCount(capped, suppress);
      FirstOfPrefix(Survivors(capped, suppress), Survivors(fused[cap..], suppress), m);
    } else {
      assert capped == fused;
    }
  }

  /** All members of a set, each once. */
  lemma {:induction false} Enumerate(s: set<nat>) returns (r: seq<nat>)
    ensures Distinct(r) && |r| == |s| && SetOf(r) == s
    decreases s
  {
    if s == {} {
      r := [];
    } else {
      var x: nat :| x in s;
      var others := Enumerate(s - {x});
      r := others + [x];
      assert x !in others by {
        assert x !in SetOf(others);
      }
      assert SetOf(r) == SetOf(others) + {x};
    }
  }

  lemma {:induction false} Beyond(s: set<nat>) returns (top: nat)
    ensures forall x :: x in s ==> x < top
    decreases s
  {
    if s == {} {
      top := 0;
    } else {
      var x: nat :| x in s;
      var above := Beyond(s - {x});
      top := Max(above, x + 1);
      assert forall y :: y in s ==> y == x || y in s - {x};
    }
  }

  lemma {:induction false} AllSuppressed(ids: seq<nat>, suppress: set<nat>)
    requires forall x :: x in ids ==> x in suppress
    ensures Survivors(ids, suppress) == []
    decreases |ids|
  {
    if ids != [] {
      AllSuppressed(ids[1..], suppress);
    }
  }

  lemma {:induction false} NoneSuppressed(ids: seq<nat>, suppress: set<nat>)
    requires forall x :: x in ids ==> x !in suppress
    ensures Survivors(ids, suppress) == ids
    decreases |ids|
  {
    if ids != [] {
      NoneSuppressed(ids[1..], suppress);
    }
  }

  lemma FreshTail(hidden: seq<nat>, unseen: seq<nat>, top: nat)
    requires Distinct(hidden) && forall x :: x in hidden ==> x < top
    requires forall i :: 0 <= i < |unseen| ==> unseen[i] == top + i
    ensures Distinct(hidden + unseen)
  {
    var both := hidden + unseen;
    forall i, j | 0 <= i < j < |both| ensures both[i] != both[j] {
      if i < |hidden| {
        assert both[i] == hidden[i] && hidden[i] in hidden;
      }
    }
  }

  /** A list that starts with everything suppressed starves a search that looks less far. */
  lemma StarvingList(suppress: set<nat>, m: nat, cap: nat) returns (fused: seq<nat>)
    requires cap < m + |suppress|
    ensures Distinct(fused) && (m > 0 ==> PageAt(fused, suppress, m, cap) != FilterThenTake(fused, suppress, m))
  {
    hide Survivors;
    var hidden := Enumerate(suppress);
    var top := Beyond(suppress);
    assert forall x :: x in hidden ==> x in SetOf(hidden);
    var unseen := seq(m, i requires 0 <= i < m => top + i);
    fused := hidden + unseen;
    FreshTail(hidden, unseen, top);
    SurvivorsOfTail(hidden, unseen, suppress);
    var capped := FirstOf(fused, cap);
    if cap <= |hidden| {
      assert capped == hidden[..cap] + [];
      SurvivorsOfTail(hidden[..cap], [], suppress);
    } else {
      assert capped == hidden + unseen[..cap - |hidden|];
      SurvivorsOfTail(hidden, unseen[..cap - |hidden|], suppress);
    }
  }

  lemma SurvivorsOfTail(hidden: seq<nat>, unseen: seq<nat>, suppress: set<nat>)
    requires forall x :: x in hidden ==> x in suppress
    requires forall x :: x in unseen ==> x !in suppress
    ensures Survivors(hidden + unseen, suppress) == unseen
  {
    AllSuppressed(hidden, suppress);
    NoneSuppressed(unseen, suppress);
    SurvivorsConcat(hidden, unseen, suppress);
  }

  /** Cutting at `cap` changes the page of no list. */
  ghost predicate Harmless(suppress: set<nat>, m: nat, cap: nat) {
    forall fused: seq<nat> :: Distinct(fused) ==> PageAt(fused, suppress, m, cap) == FilterThenTake(fused, suppress, m)
  }

  lemma HarmlessExact(suppress: set<nat>, m: nat, cap: nat)
    requires m >= 1
    ensures Harmless(suppress, m, cap) <==> m + |suppress| <= cap
  {
    if m + |suppress| <= cap {
      forall fused: seq<nat> | Distinct(fused)
        ensures PageAt(fused, suppress, m, cap) == FilterThenTake(fused, suppress, m)
      {
        PageComplete(fused, suppress, m, cap);
      }
    } else {
      var fused := StarvingList(suppress, m, cap);
    }
  }

  /** The widened cap is harmless if and only if it fits the fusion depth, and then no smaller one is. */
  lemma SuppressionExact(suppress: set<nat>, m: nat, topN: int)
    requires m >= 1 && topN >= 1
    ensures Harmless(suppress, m, Cap(Some(m), topN, |suppress|)) <==> m + |suppress| <= topN
    ensures m + |suppress| <= topN ==>
              forall cap: nat :: Harmless(suppress, m, cap) <==> cap >= Cap(Some(m), topN, |suppress|)
  {
    HarmlessExact(suppress, m, Cap(Some(m), topN, |suppress|));
    forall cap: nat ensures Harmless(suppress, m, cap) <==> m + |suppress| <= cap {
      HarmlessExact(suppress, m, cap);
    }
  }

  // ---------------------------------------------------------------- paging

  /** Everything shown by `pages` searches that each suppress all that was shown before. */
  function Shown(fused: seq<nat>, chunks: map<nat, Candidate>, m: nat, topN: int, maxTokens: int, pages: nat): seq<nat> {
    if pages == 0 then []
    else
      var before := Shown(fused, chunks, m, topN, maxTokens, pages - 1);
      before + Ids(Found(fused, chunks, topN, Some(m), SetOf(before), false, maxTokens))
  }

  lemma {:induction false} SetOfCount(ids: seq<nat>)
    requires Distinct(ids)
    ensures |SetOf(ids)| == |ids|
    decreases |ids|
  {
    if ids == [] {
      assert SetOf(ids) == {};
    } else {
      var k := |ids| - 1;
      SetOfCount(ids[..k]);
      assert ids == ids[..k] + [ids[k]];
      assert SetOf(ids) == SetOf(ids[..k]) + {ids[k]};
    }
  }

  /** With the first `n` entries suppressed, a page is the next `m`, as far as fusion goes. */
  lemma NextPage(fused: seq<nat>, n: nat, m: nat, topN: nat)
    requires Distinct(fused) && m >= 1 && topN >= 1 && n <= topN
    ensures var before := FirstOf(fused, n);
            before + PageOf(fused, SetOf(before), m, topN) == FirstOf(fused, Min(n + m, topN))
  {
    hide Survivors;
    var before := FirstOf(fused, n);
    SetOfCount(before);
    var cap := Cap(Some(m), topN, |before|);
    var capped := FirstOf(fused, cap);
    var later := capped[|before|..];
    assert capped == before + later;
    forall x | x in later ensures x !in SetOf(before) {
      var j :| 0 <= j < |later| && later[j] == x;
      assert x == fused[|before| + j];
    }
    SurvivorsOfTail(before, later, SetOf(before));
    assert FirstOf(later, m) == later;
  }

  /** The `k`-th page of `m`. */
  function Block(fused: seq<nat>, m: nat, topN: nat, k: nat): seq<nat> {
    FirstOf(fused, Min((k + 1) * m, topN))[|FirstOf(fused, Min(k * m, topN))|..]
  }

  lemma BlockIs(fused: seq<nat>, m: nat, topN: nat, k: nat)
    ensures FirstOf(fused, Min(k * m, topN)) + Block(fused, m, topN, k) == FirstOf(fused, Min(k * m + m, topN))
  {
    assert (k + 1) * m == k * m + m;
  }

  /** One more search shows the next chunks, one at least, and the next `m` if they fit. */
  lemma NextShown(fused: seq<nat>, chunks: map<nat, Candidate>, n: nat, m: nat, topN: nat, maxTokens: int) returns (n': nat)
    requires Distinct(fused) && m >= 1 && topN >= 1 && n <= topN && n <= |fused|
    requires forall x :: x in fused ==> x in chunks && chunks[x].id == x
    ensures var before := FirstOf(fused, n);
            var found := Ids(Found(fused, chunks, topN, Some(m), SetOf(before), false, maxTokens));
            && before + found == FirstOf(fused, n') && Min(n + 1, Min(topN, |fused|)) <= n' <= Min(Min(n + m, topN), |fused|)
            && (Fits(PageOf(fused, SetOf(before), m, topN), chunks, maxTokens) ==> n' == Min(Min(n + m, topN), |fused|))
  {
    var before := FirstOf(fused, n);
    var found := Ids(Found(fused, chunks, topN, Some(m), SetOf(before), false, maxTokens));
    hide PageOf, Found, SetOf, Fits;
    NextPage(fused, n, m, topN);
    SearchIsPage(fused, chunks, topN, m, SetOf(before), maxTokens);
    n' := n + |found|;
    assert before + found <= FirstOf(fused, Min(n + m, topN));
  }

  /** How deep `pages` pages of `m` reach. */
  function Depth(pages: nat, m: nat, topN: nat): (d: nat)
    ensures d <= topN
  {
    if pages == 0 then 0 else Min(Depth(pages - 1, m, topN) + m, topN)
  }

  lemma {:induction false} DepthIs(pages: nat, m: nat, topN: nat)
    ensures Depth(pages, m, topN) == Min(pages * m, topN)
    decreases pages
  {
    if pages > 0 {
      DepthIs(pages - 1, m, topN);
      assert pages * m == (pages - 1) * m + m;
    }
  }

  ghost predicate AllFit(fused: seq<nat>, chunks: map<nat, Candidate>, m: nat, topN: nat, maxTokens: int, pages: nat) {
    forall k :: 0 <= k < pages ==> Fits(Block(fused, m, topN, k), chunks, maxTokens)
  }

  lemma {:induction false} ShownToDepth(fused: seq<nat>, chunks: map<nat, Candidate>, m: nat, topN: nat, maxTokens: int,
                                        pages: nat) returns (n: nat)
    requires Distinct(fused) && m >= 1 && topN >= 1
    requires forall x :: x in fused ==> x in chunks && chunks[x].id == x
    ensures n <= |fused| && Shown(fused, chunks, m, topN, maxTokens, pages) == FirstOf(fused, n)
    ensures Min(pages, Min(topN, |fused|)) <= n <= Depth(pages, m, topN)
    ensures AllFit(fused, chunks, m, topN, maxTokens, pages) ==> n == Min(Depth(pages, m, topN), |fused|)
    decreases pages
  {
    hide Found, SetOf, Fits, FirstOf, PageOf, Block, Shown, AllFit;
    if pages == 0 {
      n := 0;
      NothingShown(fused, chunks, m, topN, maxTokens);
    } else {
      var n0 := ShownToDepth(fused, chunks, m, topN, maxTokens, pages - 1);
      n := NextShown(fused, chunks, n0, m, topN, maxTokens);
      ShownNext(fused, chunks, m, topN, maxTokens, pages);
      if AllFit(fused, chunks, m, topN, maxTokens, pages) {
        PageFits(fused, chunks, m, topN, maxTokens, pages, n0);
      }
    }
  }

  lemma NothingShown(fused: seq<nat>, chunks: map<nat, Candidate>, m: nat, topN: nat, maxTokens: int)
    ensures Shown(fused, chunks, m, topN, maxTokens, 0) == FirstOf(fused, 0)
  {
  }

  lemma ShownNext(fused: seq<nat>, chunks: map<nat, Candidate>, m: nat, topN: nat, maxTokens: int, pages: nat)
    requires pages > 0
    ensures var before := Shown(fused, chunks, m, topN, maxTokens, pages - 1);
            Shown(fused, chunks, m, topN, maxTokens, pages)
            == before + Ids(Found(fused, chunks, topN, Some(m), SetOf(before), false, maxTokens))
    ensures AllFit(fused, chunks, m, topN, maxTokens, pages) ==> AllFit(fused, chunks, m, topN, maxTokens, pages - 1)
  {
    hide Found, SetOf, Fits;
  }

  /** After whole pages the page of the next search is the next block. */
  lemma PageFits(fused: seq<nat>, chunks: map<nat, Candidate>, m: nat, topN: nat, maxTokens: int, pages: nat, n0: nat)
    requires Distinct(fused) && m >= 1 && topN >= 1 && pages > 0 && AllFit(fused, chunks, m, topN, maxTokens, pages)
    requires n0 == Min(Depth(pages - 1, m, topN), |fused|)
    ensures Fits(PageOf(fused, SetOf(FirstOf(fused, n0)), m, topN), chunks, maxTokens)
  {
    hide Fits, FirstOf, PageOf, SetOf, Block;
    assert Fits(Block(fused, m, topN, pages - 1), chunks, maxTokens);
    FirstOfLength(fused, Depth(pages - 1, m, topN));
    DepthIs(pages - 1, m, topN);
    PageIsBlock(fused, m, topN, pages - 1);
  }

  /** Paging through a fused list, each search suppressing all that was shown, never repeats and never leaves a gap,
      whatever the token budget, and shows something new each time until the fusion depth is reached. If every page fits
      the budget it goes through the list page by page. */
  lemma PagingEnumerates(fused: seq<nat>, chunks: map<nat, Candidate>, m: nat, topN: nat, maxTokens: int, pages: nat)
    requires Distinct(fused) && m >= 1 && topN >= 1
    requires forall x :: x in fused ==> x in chunks && chunks[x].id == x
    ensures var shown := Shown(fused, chunks, m, topN, maxTokens, pages);
            && shown == FirstOf(fused, |shown|)
            && Min(pages, Min(topN, |fused|)) <= |shown| <= Min(pages * m, topN)
            && (AllFit(fused, chunks, m, topN, maxTokens, pages) ==> shown == FirstOf(fused, Min(pages * m, topN)))
  {
    var n := ShownToDepth(fused, chunks, m, topN, maxTokens, pages);
    hide Shown, AllFit;
    DepthIs(pages, m, topN);
    FirstOfLength(fused, n);
    FirstOfLength(fused, Min(pages * m, topN));
  }

  lemma FirstOfLength(s: seq<nat>, n: nat)
    ensures |FirstOf(s, n)| == Min(n, |s|) && FirstOf(s, n) == FirstOf(s, Min(n, |s|))
  {
  }

  lemma PageIsBlock(fused: seq<nat>, m: nat, topN: nat, k: nat)
    requires Distinct(fused) && m >= 1 && topN >= 1
    ensures PageOf(fused, SetOf(FirstOf(fused, Min(k * m, topN))), m, topN) == Block(fused, m, topN, k)
  {
    hide PageOf, SetOf, FirstOf, Block;
    var n := k * m;
    NextPage(fused, Min(n, topN), m, topN);
    BlockIs(fused, m, topN, k);
    assert Min(Min(n, topN) + m, topN) == Min(n + m, topN);
    SameBehind(FirstOf(fused, Min(n, topN)), PageOf(fused, SetOf(FirstOf(fused, Min(n, topN))), m, topN),
               Block(fused, m, topN, k));
  }

  lemma SameBehind(before: seq<nat>, a: seq<nat>, b: seq<nat>)
    requires before + a == before + b
    ensures a == b
  {
    assert (before + a)[|before|..] == a && (before + b)[|before|..] == b;
  }

  // ---------------------------------------------------------------- several sub-queries

  /** The ids of all groups up to `n`, and what was hidden before the first. */
  function Hidden(groups: seq<seq<Candidate>>, suppress: set<nat>): set<nat> {
    if groups == [] then suppress
    else Hidden(groups[..|groups| - 1], suppress) + SetOf(Ids(groups[|groups| - 1]))
  }

  /** No group repeats a suppressed id or an id of an earlier group. */
  ghost predicate GroupsDisjoint(groups: seq<seq<Candidate>>, suppress: set<nat>) {
    forall g :: 0 <= g < |groups| ==> SetOf(Ids(groups[g])) !! Hidden(groups[..g], suppress)
  }

  /** Each group is what its sub-query finds with everything shown before it suppressed. */
  ghost predicate GroupsFound(groups: seq<seq<Candidate>>, fused: seq<seq<nat>>, chunks: map<nat, Candidate>, topN: int,
                              maxResults: Option<int>, suppress: set<nat>, dedup: bool, maxTokens: int)
    requires |groups| <= |fused|
  {
    forall g :: 0 <= g < |groups| ==>
      groups[g] == Found(fused[g], chunks, topN, maxResults, Hidden(groups[..g], suppress), dedup, maxTokens)
  }

  /** `search_multi`: each sub-query is searched with everything shown so far suppressed. */
  method SearchMulti(fused: seq<seq<nat>>, chunks: map<nat, Candidate>, topN: int, maxResults: Option<int>,
                     suppress: set<nat>, dedup: bool, maxTokens: int)
    returns (groups: seq<seq<Candidate>>)
    ensures |groups| == |fused|
    ensures GroupsFound(groups, fused, chunks, topN, maxResults, suppress, dedup, maxTokens)
    ensures GroupsDisjoint(groups, suppress)
  {
    groups := [];
    var accumulated := suppress;
    for g := 0 to |fused|
      invariant |groups| == g && accumulated == Hidden(groups, suppress)
      invariant GroupsFound(groups, fused, chunks, topN, maxResults, suppress, dedup, maxTokens)
      invariant GroupsDisjoint(groups, suppress)
    {
      hide Hidden, Found, GroupsFound, GroupsDisjoint, Take, Considered, SetOf;
      var result := SearchOne(fused[g], chunks, topN, maxResults, accumulated, dedup, maxTokens);
      GroupAdded(groups, result, fused, chunks, topN, maxResults, suppress, dedup, maxTokens);
      groups := groups + [result];
      accumulated := accumulated + SetOf(Ids(result));
    }
  }

  method SearchOne(fused: seq<nat>, chunks: map<nat, Candidate>, topN: int, maxResults: Option<int>,
                   suppress: set<nat>, dedup: bool, maxTokens: int)
    returns (kept: seq<Candidate>)
    ensures kept == Found(fused, chunks, topN, maxResults, suppress, dedup, maxTokens)
    ensures SetOf(Ids(kept)) !! suppress
  {
    hide Considered, TakeFrom, SetOf, Subsequence, FreshKeys;
    var ranked := Considered(fused, chunks, topN, maxResults, suppress);
    kept := TakeLoop(ranked, suppress, dedup, maxTokens, maxResults);
    TakeFilters(ranked, suppress, dedup, maxTokens, maxResults, {}, 0);
    IdsAvoid(kept, suppress);
  }

  lemma GroupAdded(groups: seq<seq<Candidate>>, result: seq<Candidate>, fused: seq<seq<nat>>, chunks: map<nat, Candidate>,
                   topN: int, maxResults: Option<int>, suppress: set<nat>, dedup: bool, maxTokens: int)
    requires |groups| < |fused|
    requires GroupsFound(groups, fused, chunks, topN, maxResults, suppress, dedup, maxTokens)
    requires GroupsDisjoint(groups, suppress)
    requires result == Found(fused[|groups|], chunks, topN, maxResults, Hidden(groups, suppress), dedup, maxTokens)
    requires SetOf(Ids(result)) !! Hidden(groups, suppress)
    ensures GroupsFound(groups + [result], fused, chunks, topN, maxResults, suppress, dedup, maxTokens)
    ensures GroupsDisjoint(groups + [result], suppress)
    ensures Hidden(groups + [result], suppress) == Hidden(groups, suppress) + SetOf(Ids(result))
  {
    hide Found, SetOf, Ids;
    var both := groups + [result];
    assert both[..|groups|] == groups;
    forall g | 0 <= g < |both|
      ensures both[g] == Found(fused[g], chunks, topN, maxResults, Hidden(both[..g], suppress), dedup, maxTokens)
      ensures SetOf(Ids(both[g])) !! Hidden(both[..g], suppress)
    {
      if g < |groups| {
        assert both[..g] == groups[..g];
      }
    }
  }

  lemma {:induction false} IdsAvoid(cs: seq<Candidate>, suppress: set<nat>)
    requires forall c :: c in cs ==> c.id !in suppress
    ensures SetOf(Ids(cs)) !! suppress
    decreases |cs|
  {
    if cs != [] {
      IdsAvoid(cs[1..], suppress);
      assert SetOf(Ids(cs)) == {cs[0].id} + SetOf(Ids(cs[1..]));
      assert cs[0] in cs;
    }
  }

  /** Any two groups share no chunk, and none shows a chunk suppressed from the start. */
  lemma {:induction false} GroupsPairwiseDisjoint(groups: seq<seq<Candidate>>, suppress: set<nat>, g: nat, h: nat)
    requires GroupsDisjoint(groups, suppress) && g < h < |groups|
    ensures SetOf(Ids(groups[g])) !! SetOf(Ids(groups[h]))
    ensures SetOf(Ids(groups[h])) !! suppress
  {
    HiddenGrows(groups, suppress, g, h);
  }

  lemma {:induction false} HiddenGrows(groups: seq<seq<Candidate>>, suppress: set<nat>, g: nat, h: nat)
    requires g < h <= |groups|
    ensures SetOf(Ids(groups[g])) <= Hidden(groups[..h], suppress) && suppress <= Hidden(groups[..h], suppress)
    decreases h
  {
    assert groups[..h][..h - 1] == groups[..h - 1];
    if g < h - 1 {
      HiddenGrows(groups, suppress, g, h - 1);
    } else {
      HiddenKeeps(groups[..h - 1], suppress);
    }
  }

  lemma {:induction false} HiddenKeeps(groups: seq<seq<Candidate>>, suppress: set<nat>)
    ensures suppress <= Hidden(groups, suppress)
    decreases |groups|
  {
    if groups != [] {
      HiddenKeeps(groups[..|groups| - 1], suppress);
    }
  }
}
