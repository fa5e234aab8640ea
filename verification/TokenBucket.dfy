/** The embed rate limiter, and the self-throttle that turns its rate down. */
module TokenBuckets {
  function RMin(a: real, b: real): real { if a <= b then a else b }

  function RMax(a: real, b: real): real { if a >= b then a else b }

  /** Tokens earned over a span of time. */
  function Earned(span: real, rate: real): real { span * rate }

  datatype Bucket = Bucket(rate: real, burst: real, tokens: real, last: real)

  ghost predicate Sane(b: Bucket) {
    0.0 <= b.rate && 1.0 <= b.burst && 0.0 <= b.tokens <= b.burst
  }

  function Refill(b: Bucket, now: real): Bucket {
    if now > b.last then b.(tokens := RMin(b.burst, b.tokens + Earned(now - b.last, b.rate)), last := now) else b
  }

  /** How long an acquire asks to sleep: not at all when enough tokens are there. */
  function Asked(b: Bucket, n: real, now: real): real {
    var f := Refill(b, now);
    if f.rate <= 0.0 || f.tokens >= n then 0.0 else RMax(0.01, (n - f.tokens) / f.rate)
  }

  /** `acquire` of `n` tokens at `now`; a sleeping one wakes at `wake`. A rate of zero turns the limiter off. */
  function Acquired(b: Bucket, n: real, now: real, wake: real): Bucket {
    if b.rate <= 0.0 then b
    else
      var f := Refill(b, now);
      if f.tokens >= n then f.(tokens := f.tokens - n)
      else if n > f.burst then f.(tokens := 0.0, last := wake)
      else f.(tokens := RMax(0.0, RMin(f.burst, f.tokens + Earned(wake - f.last, f.rate)) - n), last := wake)
  }

  class TokenBucket {
    var rate: real
    var burst: real
    var tokens: real
    var lastRefill: real

    ghost function Value(): Bucket reads this { Bucket(rate, burst, tokens, lastRefill) }

    constructor (tokensPerSecond: real, burst: real, now: real)
      ensures Value() == Bucket(RMax(0.0, tokensPerSecond), RMax(1.0, burst), RMax(1.0, burst), now)
      ensures Sane(Value())
    {
      rate, this.burst, tokens, lastRefill := RMax(0.0, tokensPerSecond), RMax(1.0, burst), RMax(1.0, burst), now;
    }

    method Acquire(n: real, now: real, wake: real)
      modifies this
      ensures Value() == Acquired(old(Value()), n, now, wake)
    {
      if rate <= 0.0 {
        return;
      }
      var elapsed := now - lastRefill;
      if elapsed > 0.0 {
        tokens := RMin(burst, tokens + Earned(elapsed, rate));
        lastRefill := now;
      }
      if tokens >= n {
        tokens := tokens - n;
        return;
      }
      if n > burst {
        tokens := 0.0;
        lastRefill := wake;
        return;
      }
      elapsed := wake - lastRefill;
      tokens := RMin(burst, tokens + Earned(elapsed, rate));
      lastRefill := wake;
      tokens := RMax(0.0, tokens - n);
    }

    method SetRate(tokensPerSecond: real)
      modifies this`rate
      ensures Value() == old(Value()).(rate := RMax(0.0, tokensPerSecond))
    {
      rate := RMax(0.0, tokensPerSecond);
    }
  }

  // ---------------------------------------------------------------- runs

  datatype Op = Acquire(n: real, now: real, wake: real) | SetRate(rate: real)

  function Apply(b: Bucket, op: Op): Bucket {
    match op
    case Acquire(n, now, wake) => Acquired(b, n, now, wake)
    case SetRate(r) => b.(rate := RMax(0.0, r))
  }

  function Run(b: Bucket, ops: seq<Op>): Bucket
    decreases |ops|
  {
    if ops == [] then b else Run(Apply(b, ops[0]), ops[1..])
  }

  /** The tokens handed out while the limiter is on. A limiter that is off hands out without counting. */
  function Granted(b: Bucket, ops: seq<Op>): real
    decreases |ops|
  {
    if ops == [] then 0.0
    else (if ops[0].Acquire? && b.rate > 0.0 then ops[0].n else 0.0) + Granted(Apply(b, ops[0]), ops[1..])
  }

  /** The clock does not run backwards, sleeps are at least as long as asked, and no rate is set above `top`. */
  ghost predicate Enabled(b: Bucket, op: Op, top: real) {
    match op
    case Acquire(n, now, wake) => n >= 0.0 && now >= b.last && wake >= now + Asked(b, n, now)
    case SetRate(r) => r <= top
  }

  ghost predicate EnabledRun(b: Bucket, ops: seq<Op>, top: real)
    decreases |ops|
  {
    ops == [] || (Enabled(b, ops[0], top) && EnabledRun(Apply(b, ops[0]), ops[1..], top))
  }

  lemma EarnedGrows(span: real, rate: real, top: real)
    requires 0.0 <= rate <= top && span >= 0.0
    ensures 0.0 <= Earned(span, rate) <= Earned(span, top)
  {
  }

  lemma EarnedAdds(first: real, second: real, rate: real)
    ensures Earned(first + second, rate) == Earned(first, rate) + Earned(second, rate)
    ensures Earned(0.0, rate) == 0.0
  {
  }

  lemma RefillEarns(b: Bucket, now: real, top: real)
    requires Sane(b) && b.rate <= top && now >= b.last
    ensures var f := Refill(b, now);
            Sane(f) && f.rate == b.rate && f.burst == b.burst && f.last == now
            && f.tokens <= b.tokens + Earned(now - b.last, top)
  {
    hide Earned;
    EarnedGrows(now - b.last, b.rate, top);
    EarnedAdds(0.0, 0.0, top);
  }

  lemma EarnedExact(missing: real, rate: real, span: real)
    requires rate > 0.0
    ensures Earned(span, rate) >= missing <==> span >= missing / rate
    ensures Earned(missing / rate, rate) == missing
  {
    var need := missing / rate;
    assert need * rate == missing;
    if span >= need {
      EarnedGrows(span - need, 0.0, rate);
    } else {
      assert (need - span) * rate > 0.0;
    }
    assert span * rate - missing == (span - need) * rate;
  }

  /** Counting from the up-front refill: the bucket pays for what a sleeping acquire grants
      if and only if the sleep really was as long as the missing tokens take to earn. */
  lemma SleepPaysExact(b: Bucket, n: real, now: real, wake: real)
    requires Sane(b) && b.rate > 0.0 && now >= b.last && wake >= now && Refill(b, now).tokens < n
    ensures var f, e := Refill(b, now), Acquired(b, n, now, wake);
            n + e.tokens <= f.tokens + Earned(wake - now, f.rate) <==> wake - now >= (n - f.tokens) / f.rate
  {
    hide Earned;
    var f, e := Refill(b, now), Acquired(b, n, now, wake);
    RefillEarns(b, now, b.rate);
    EarnedExact(n - f.tokens, f.rate, wake - now);
  }

  lemma AcquireEarns(b: Bucket, n: real, now: real, wake: real, top: real)
    requires Sane(b) && b.rate <= top && Enabled(b, Acquire(n, now, wake), top)
    ensures var e := Acquired(b, n, now, wake);
            Sane(e) && e.rate == b.rate && e.burst == b.burst && e.last >= b.last
            && (if b.rate > 0.0 then n else 0.0) + e.tokens <= b.tokens + Earned(e.last - b.last, top)
  {
    hide Earned;
    EarnedAdds(0.0, 0.0, top);
    if b.rate > 0.0 {
      var f, e := Refill(b, now), Acquired(b, n, now, wake);
      RefillEarns(b, now, top);
      if f.tokens < n {
        SleepPaysExact(b, n, now, wake);
        EarnedGrows(wake - now, f.rate, top);
        EarnedAdds(now - b.last, wake - now, top);
      }
    }
  }

  /** Over any run, whatever the sizes asked and however the rate was changed on the way, also to zero and back, the
      tokens granted by the limiter while it is on stay within what was there plus the largest rate times the time
      passed; the bucket never over- or underflows. */
  lemma {:induction false} GrantedWithinRate(b: Bucket, ops: seq<Op>, top: real)
    requires Sane(b) && b.rate <= top && EnabledRun(b, ops, top)
    ensures var e := Run(b, ops);
            Sane(e) && e.last >= b.last
            && Granted(b, ops) + e.tokens <= b.tokens + Earned(e.last - b.last, top)
            && Granted(b, ops) <= b.burst + Earned(e.last - b.last, top)
    decreases |ops|
  {
    EarnedAdds(0.0, 0.0, top);
    if ops != [] {
      var c := Apply(b, ops[0]);
      if ops[0].Acquire? {
        AcquireEarns(b, ops[0].n, ops[0].now, ops[0].wake, top);
      }
      hide Acquired, Asked, Refill, Earned;
      GrantedWithinRate(c, ops[1..], top);
      EarnedAdds(c.last - b.last, Run(c, ops[1..]).last - c.last, top);
    }
  }

  /** An acquire asks for no sleep when the limiter is off or enough tokens are there, and otherwise for as long as the missing
      ones take to earn, but at least a hundredth of a second. */
  lemma AskedExact(b: Bucket, n: real, now: real)
    requires Sane(b) && now >= b.last
    ensures var asked, f := Asked(b, n, now), Refill(b, now);
            if b.rate <= 0.0 || n <= f.tokens then asked == 0.0
            else asked >= 0.01 && Earned(asked, b.rate) >= n - f.tokens
                 && (asked > 0.01 ==> Earned(asked, b.rate) == n - f.tokens)
  {
    RefillEarns(b, now, b.rate);
    var f := Refill(b, now);
    if b.rate > 0.0 && n > f.tokens {
      EarnedExact(n - f.tokens, b.rate, Asked(b, n, now));
      hide Earned;
    }
  }

  /** And nothing is lost but what does not fit: an acquire within the burst leaves what was there and what was earned, up to
      the burst, less what it took, if and only if the sleep was as long as asked for; a larger one leaves nothing. */
  lemma NothingLostExact(b: Bucket, n: real, now: real, wake: real)
    requires Sane(b) && b.rate > 0.0 && n >= 0.0 && now >= b.last && wake >= now
    ensures var f, e := Refill(b, now), Acquired(b, n, now, wake);
            if n <= f.tokens then n + e.tokens == f.tokens && e.last == f.last
            else
              && e.last == wake
              && (n <= b.burst ==> (n + e.tokens == RMin(b.burst, f.tokens + Earned(wake - now, b.rate))
                                    <==> Earned(wake - now, b.rate) >= n - f.tokens))
              && (n > b.burst ==> e.tokens == 0.0)
  {
    RefillEarns(b, now, b.rate);
    hide Earned;
  }

  /** While the limiter is off an acquire neither waits nor leaves a trace, whatever is asked. */
  lemma OffExact(b: Bucket, n: real, now: real, wake: real)
    requires Sane(b) && n > 0.0 && now >= b.last && wake >= now
    ensures b.rate <= 0.0 <==> Acquired(b, n, now, wake) == b && Asked(b, n, now) == 0.0
  {
    if b.rate > 0.0 {
      hide Earned;
      RefillEarns(b, now, b.rate);
      EarnedGrows(now - b.last, b.rate, b.rate);
      if Refill(b, now).tokens >= n && now == b.last {
        assert Acquired(b, n, now, wake).tokens == b.tokens - n;
      }
    }
  }

  /** Setting a rate credits the time since the last refill at the new rate. This makes no difference if and only if no
      time has passed, the rate is the same, or the bucket would be full at either rate. */
  lemma RateIsRetroactive(b: Bucket, rate: real, now: real)
    requires Sane(b) && rate >= 0.0 && now >= b.last
    ensures Refill(Apply(b, SetRate(rate)), now).tokens == RMin(b.burst, b.tokens + Earned(now - b.last, rate))
    ensures Refill(Apply(b, SetRate(rate)), now).tokens == Refill(b, now).tokens
            <==> || now == b.last || rate == b.rate
                 || b.tokens + Earned(now - b.last, RMin(rate, b.rate)) >= b.burst
  {
    EarnedAdds(0.0, 0.0, rate);
    if now > b.last {
      EarnedStrictly(now - b.last, rate, b.rate);
    }
    hide Earned;
  }

  lemma EarnedStrictly(span: real, a: real, b: real)
    requires span > 0.0
    ensures Earned(span, a) < Earned(span, b) <==> a < b
    ensures Earned(span, a) == Earned(span, b) <==> a == b
  {
    if a < b {
      assert span * (b - a) > 0.0;
    } else if b < a {
      assert span * (a - b) > 0.0;
    }
  }

  /** The bound is reached: a full bucket gives its burst at once and then earns at the rate. */
  lemma BoundReached(b: Bucket, n: real)
    requires Sane(b) && b.rate > 0.0 && b.tokens == b.burst && 0.0 < n <= b.burst && n / b.rate >= 0.01
    ensures var ops := [Acquire(b.burst, b.last, b.last), Acquire(n, b.last, b.last + n / b.rate)];
            var e := Run(b, ops);
            EnabledRun(b, ops, b.rate) && Granted(b, ops) == b.burst + Earned(e.last - b.last, b.rate)
  {
    var first, second := Acquire(b.burst, b.last, b.last), Acquire(n, b.last, b.last + n / b.rate);
    var ops := [first, second];
    var c := Apply(b, first);
    assert ops[1..] == [second] && [second][1..] == [];
    assert c == b.(tokens := 0.0);
    EarnedExact(n, b.rate, n / b.rate);
    assert Run(b, ops) == Run(c, [second]) == Apply(c, second);
    assert EnabledRun(c, [second], b.rate);
    assert Granted(c, [second]) == n;
  }

  // ---------------------------------------------------------------- the self-throttle

  datatype Throttle = Throttle(active: bool, lastCheck: real, rate: real)

  datatype Sample = Sample(now: real, pct: real)

  /** Half the configured rate, but never under one per second. */
  function Engaged(baseline: real): real { RMax(1.0, baseline / 2.0) }

  function Sampled(t: Throttle, threshold: real, now: real): bool {
    threshold > 0.0 && now - t.lastCheck >= 60.0
  }

  function Ticked(t: Throttle, threshold: real, baseline: real, s: Sample): Throttle {
    if !Sampled(t, threshold, s.now) then t
    else if s.pct > threshold && !t.active then Throttle(true, s.now, RMax(0.0, Engaged(baseline)))
    else if s.pct < threshold * 0.6 && t.active then Throttle(false, s.now, RMax(0.0, baseline))
    else t.(lastCheck := s.now)
  }

  class Throttler {
    const threshold: real
    const baseline: real
    const limiter: TokenBucket
    var active: bool
    var lastCheck: real

    ghost function Value(): Throttle reads this, limiter { Throttle(active, lastCheck, limiter.rate) }

    constructor (threshold: real, baseline: real, limiter: TokenBucket)
      requires limiter.rate == RMax(0.0, baseline)
      ensures this.threshold == threshold && this.baseline == baseline && this.limiter == limiter
      ensures Value() == Throttle(false, 0.0, RMax(0.0, baseline))
    {
      this.threshold, this.baseline, this.limiter := threshold, baseline, limiter;
      active, lastCheck := false, 0.0;
    }

    /** `_maybe_self_throttle`, with the clock and the CPU share as inputs. */
    method MaybeSelfThrottle(now: real, pct: real)
      modifies this, limiter`rate
      ensures Value() == Ticked(old(Value()), threshold, baseline, Sample(now, pct))
    {
      if threshold <= 0.0 {
        return;
      }
      if now - lastCheck < 60.0 {
        return;
      }
      lastCheck := now;
      if pct > threshold && !active {
        limiter.SetRate(Engaged(baseline));
        active := true;
      } else if pct < threshold * 0.6 && active {
        limiter.SetRate(baseline);
        active := false;
      }
    }
  }

  function TickedAll(t: Throttle, threshold: real, baseline: real, samples: seq<Sample>): Throttle {
    if samples == [] then t
    else Ticked(TickedAll(t, threshold, baseline, samples[..|samples| - 1]), threshold, baseline, samples[|samples| - 1])
  }

  /** Sample `i` was looked at: a minute had passed since the last one that was. */
  ghost predicate Looked(t: Throttle, threshold: real, baseline: real, samples: seq<Sample>, i: nat)
    requires i < |samples|
  {
    Sampled(TickedAll(t, threshold, baseline, samples[..i]), threshold, samples[i].now)
  }

  /** The last sample that was looked at. */
  ghost predicate LookedLast(t: Throttle, threshold: real, baseline: real, samples: seq<Sample>, j: nat) {
    && j < |samples| && Looked(t, threshold, baseline, samples, j)
    && forall m :: j < m < |samples| ==> !Looked(t, threshold, baseline, samples, m)
  }

  ghost predicate NeverLooked(t: Throttle, threshold: real, baseline: real, samples: seq<Sample>) {
    forall m :: 0 <= m < |samples| ==> !Looked(t, threshold, baseline, samples, m)
  }

  /** The time of the last look is that of the last sample that was looked at. */
  lemma {:induction false} LastLook(t: Throttle, threshold: real, baseline: real, samples: seq<Sample>)
    ensures var last := TickedAll(t, threshold, baseline, samples).lastCheck;
            || (exists j: nat :: j < |samples| && LookedLast(t, threshold, baseline, samples, j) && last == samples[j].now)
            || (last == t.lastCheck && NeverLooked(t, threshold, baseline, samples))
    decreases |samples|
  {
    hide Looked, TickedAll, LookedLast, NeverLooked;
    if samples == [] {
      NothingLooked(t, threshold, baseline);
    } else {
      var k := |samples| - 1;
      LastLook(t, threshold, baseline, samples[..k]);
      LookMoves(t, threshold, baseline, samples);
      if Looked(t, threshold, baseline, samples, k) {
        LooksOne(t, threshold, baseline, samples, k);
      } else if j: nat :| j < k && LookedLast(t, threshold, baseline, samples[..k], j)
                          && TickedAll(t, threshold, baseline, samples[..k]).lastCheck == samples[..k][j].now {
        LooksOne(t, threshold, baseline, samples, j);
      } else {
        LooksOne(t, threshold, baseline, samples, k);
      }
    }
  }

  lemma NothingLooked(t: Throttle, threshold: real, baseline: real)
    ensures NeverLooked(t, threshold, baseline, []) && TickedAll(t, threshold, baseline, []) == t
  {
  }

  /** One more sample is the last that was looked at, or leaves the last one as it was. */
  lemma LooksOne(t: Throttle, threshold: real, baseline: real, samples: seq<Sample>, j: nat)
    requires samples != []
    ensures var k := |samples| - 1;
            && (LookedLast(t, threshold, baseline, samples[..k], j) ==> j < k && samples[..k][j] == samples[j])
            && (Looked(t, threshold, baseline, samples, k) ==> LookedLast(t, threshold, baseline, samples, k))
            && (!Looked(t, threshold, baseline, samples, k) ==>
                  && (LookedLast(t, threshold, baseline, samples[..k], j) ==> LookedLast(t, threshold, baseline, samples, j))
                  && (NeverLooked(t, threshold, baseline, samples[..k]) ==> NeverLooked(t, threshold, baseline, samples)))
  {
    var k := |samples| - 1;
    forall m | 0 <= m < k
      ensures Looked(t, threshold, baseline, samples[..k], m) == Looked(t, threshold, baseline, samples, m)
    {
      SameLook(t, threshold, baseline, samples, k, m);
    }
    hide Looked;
  }

  lemma SameLook(t: Throttle, threshold: real, baseline: real, samples: seq<Sample>, n: nat, m: nat)
    requires m < n <= |samples|
    ensures Looked(t, threshold, baseline, samples[..n], m) == Looked(t, threshold, baseline, samples, m)
    ensures samples[..n][m] == samples[m]
  {
    assert samples[..n][..m] == samples[..m];
  }

  lemma LookMoves(t: Throttle, threshold: real, baseline: real, samples: seq<Sample>)
    requires samples != []
    ensures var k := |samples| - 1;
            TickedAll(t, threshold, baseline, samples).lastCheck
            == if Looked(t, threshold, baseline, samples, k) then samples[k].now
               else TickedAll(t, threshold, baseline, samples[..k]).lastCheck
  {
  }

  /** A sample is looked at if and only if the throttle is on and a minute has passed since the start and since every sample
      that was looked at before. */
  lemma LookedExact(t: Throttle, threshold: real, baseline: real, samples: seq<Sample>, i: nat)
    requires i < |samples| && t.lastCheck <= samples[0].now
    requires forall j, m :: 0 <= j < m < |samples| ==> samples[j].now <= samples[m].now
    ensures Looked(t, threshold, baseline, samples, i)
            <==> threshold > 0.0 && samples[i].now - t.lastCheck >= 60.0
                 && forall j :: 0 <= j < i && Looked(t, threshold, baseline, samples, j) ==>
                      samples[i].now - samples[j].now >= 60.0
  {
    var before := samples[..i];
    LastLook(t, threshold, baseline, before);
    forall m | 0 <= m < i
      ensures Looked(t, threshold, baseline, before, m) == Looked(t, threshold, baseline, samples, m) && before[m] == samples[m]
    {
      SameLook(t, threshold, baseline, samples, i, m);
    }
    var last := TickedAll(t, threshold, baseline, before).lastCheck;
    assert Looked(t, threshold, baseline, samples, i) <==> threshold > 0.0 && samples[i].now - last >= 60.0;
    hide Looked, TickedAll;
  }

  /** Sample `i` was looked at and high, and no sample looked at since was low. */
  ghost predicate HotSince(t: Throttle, threshold: real, baseline: real, samples: seq<Sample>, i: nat)
    requires i < |samples|
  {
    && Looked(t, threshold, baseline, samples, i) && samples[i].pct > threshold
    && forall j :: i < j < |samples| && Looked(t, threshold, baseline, samples, j) ==> samples[j].pct >= threshold * 0.6
  }

  ghost predicate RunsHot(t: Throttle, threshold: real, baseline: real, samples: seq<Sample>) {
    exists i :: 0 <= i < |samples| && HotSince(t, threshold, baseline, samples, i)
  }

  lemma HotSincePrefix(t: Throttle, threshold: real, baseline: real, samples: seq<Sample>, k: nat, i: nat)
    requires i < k && k + 1 == |samples|
    ensures HotSince(t, threshold, baseline, samples, i)
            <==> HotSince(t, threshold, baseline, samples[..k], i)
                 && (Looked(t, threshold, baseline, samples, k) ==> samples[k].pct >= threshold * 0.6)
  {
    forall j | 0 <= j < k
      ensures Looked(t, threshold, baseline, samples[..k], j) == Looked(t, threshold, baseline, samples, j)
      ensures samples[..k][j] == samples[j]
    {
      assert samples[..k][..j] == samples[..j];
    }
    hide Looked;
  }

  /** One more sample: hot if it is high, not hot if it is low, else as before; and only if it is looked at. */
  lemma RunsHotStep(t: Throttle, threshold: real, baseline: real, samples: seq<Sample>)
    requires samples != []
    ensures var k := |samples| - 1;
            RunsHot(t, threshold, baseline, samples)
            <==> (if !Looked(t, threshold, baseline, samples, k) then RunsHot(t, threshold, baseline, samples[..k])
                  else samples[k].pct > threshold
                       || (RunsHot(t, threshold, baseline, samples[..k]) && samples[k].pct >= threshold * 0.6))
  {
    hide Looked;
    var k := |samples| - 1;
    forall i | 0 <= i < k
      ensures HotSince(t, threshold, baseline, samples, i)
              <==> HotSince(t, threshold, baseline, samples[..k], i)
                   && (Looked(t, threshold, baseline, samples, k) ==> samples[k].pct >= threshold * 0.6)
    {
      HotSincePrefix(t, threshold, baseline, samples, k, i);
    }
    assert HotSince(t, threshold, baseline, samples, k)
      <==> Looked(t, threshold, baseline, samples, k) && samples[k].pct > threshold;
    hide HotSince;
    if RunsHot(t, threshold, baseline, samples[..k]) {
      var i :| 0 <= i < k && HotSince(t, threshold, baseline, samples[..k], i);
      assert HotSince(t, threshold, baseline, samples, i)
        <==> (Looked(t, threshold, baseline, samples, k) ==> samples[k].pct >= threshold * 0.6);
    }
    if RunsHot(t, threshold, baseline, samples) {
      var i :| 0 <= i < |samples| && HotSince(t, threshold, baseline, samples, i);
      assert i < k ==> HotSince(t, threshold, baseline, samples[..k], i);
    }
  }

  /** Over any run of samples the limiter is at its configured rate, or at the engaged rate exactly while the last
      telling sample was high. The engaged rate is a slower one if and only if the configured rate is above one. */
  lemma {:induction false} ThrottleFollowsLoad(start: Throttle, threshold: real, baseline: real, samples: seq<Sample>)
    requires start == Throttle(false, start.lastCheck, RMax(0.0, baseline))
    ensures var t := TickedAll(start, threshold, baseline, samples);
            && (t.active <==> RunsHot(start, threshold, baseline, samples))
            && (if !t.active then t.rate == RMax(0.0, baseline)
                else if baseline >= 2.0 then 2.0 * t.rate == baseline else t.rate == 1.0)
            && (t.active && baseline > 0.0 ==> (t.rate < baseline <==> baseline > 1.0))
    decreases |samples|
  {
    if samples != [] {
      var k := |samples| - 1;
      ThrottleFollowsLoad(start, threshold, baseline, samples[..k]);
      RunsHotStep(start, threshold, baseline, samples);
      hide RunsHot;
    }
  }
}
