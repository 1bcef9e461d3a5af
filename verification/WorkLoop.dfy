/** The graph-poll work loop: one pass over the pending items with per-item backoff and quarantine
    (`kernel/work_loop.py`, `work_loop_state.py`, `work_loop_policy.py`, `work_loop_quarantine.py`).
    An item is represented by its key; what the pass meets outside is an arbitrary `Pass`. Seconds
    are real numbers. */
module WorkLoop {
  import opened Options

  datatype Policy = Policy(poll: real, base: real, multiplier: real, ceiling: real, maxAttempts: int)

  /** The bounds and the validator of `WorkLoopPolicy`; the poll interval may be replaced unchecked. */
  predicate ValidPolicy(p: Policy) {
    p.base > 0.0 && p.multiplier > 1.0 && p.ceiling > 0.0 && p.ceiling >= p.base && p.maxAttempts >= 1
  }

  datatype FailureRecord = FailureRecord(attempts: nat, nextRetryAt: real)

  /** The retry ledger, and the durable markers of the sink when there is one. */
  datatype Ledger<K> = Ledger(failures: map<K, FailureRecord>, quarantined: set<K>, markers: Option<set<K>>)

  /** One pass: the clock, the pending items, after how many starts a stop is asked for, which
      starts raise, and which items are still pending afterwards. */
  datatype Pass<!K> = Pass(now: real, items: seq<K>, stopAfter: nat, raises: nat -> bool, remaining: set<K>)

  datatype RunOnceResult = RunOnceResult(
    found: nat, attempted: nat, advanced: nat, failed: nat, noProgress: nat, skipped: nat, quarantined: nat,
    nextRetryDelay: Option<real>)

  // ----- backoff -------------------------------------------------------------------------------

  function Times(a: real, b: real): (r: real)
    ensures r == a * b
  {
    a * b
  }

  function Power(x: real, n: nat): real { if n == 0 then 1.0 else Times(x, Power(x, n - 1)) }

  function Min(a: real, b: real): real { if b < a then b else a }

  function Backoff(p: Policy, attempts: nat): real {
    Min(Times(p.base, Power(p.multiplier, if attempts == 0 then 0 else attempts - 1)), p.ceiling)
  }

  lemma TimesGrows(a: real, x: real, y: real)
    requires a > 0.0 && x <= y
    ensures Times(a, x) <= Times(a, y)
  {
    assert a * y - a * x == a * (y - x);
    NotNegative(a, y - x);
  }

  lemma NotNegative(a: real, b: real)
    requires a >= 0.0 && b >= 0.0
    ensures a * b >= 0.0
  {
  }

  /** A factor of at least one makes nothing smaller. */
  lemma AtLeast(x: real, a: real)
    requires x >= 1.0 && a > 0.0
    ensures a <= Times(x, a) == Times(a, x)
  {
    TimesGrows(a, 1.0, x);
  }

  lemma {:induction false} PowerGrows(x: real, n: nat)
    requires x > 1.0
    ensures 1.0 <= Power(x, n) <= Power(x, n + 1)
  {
    if n > 0 { PowerGrows(x, n - 1); }
    hide Times;
    AtLeast(x, Power(x, n));
  }

  /** Every delay lies between the base and the ceiling and never shrinks from one failure to the next. */
  lemma {:induction false} BackoffBounds(p: Policy, attempts: nat)
    requires ValidPolicy(p)
    ensures p.base <= Backoff(p, attempts) <= p.ceiling
    ensures Backoff(p, attempts) <= Backoff(p, attempts + 1)
  {
    var n := if attempts == 0 then 0 else attempts - 1;
    PowerGrows(p.multiplier, n);
    var a, b := Power(p.multiplier, n), Power(p.multiplier, n + 1);
    hide Power, Times;
    AtLeast(a, p.base);
    TimesGrows(p.base, a, b);
  }

  /** The first delay is the base; each later one is the multiplier times the one before, up to the ceiling. */
  lemma BackoffGrows(p: Policy, n: nat)
    requires ValidPolicy(p) && n >= 1
    ensures Backoff(p, n) == if n == 1 then p.base else Min(p.multiplier * Backoff(p, n - 1), p.ceiling)
  {
    if n == 1 {
      assert Power(p.multiplier, 0) == 1.0;
    } else {
      LaterDelay(p, n);
    }
  }

  lemma LaterDelay(p: Policy, n: nat)
    requires ValidPolicy(p) && n >= 2
    ensures Backoff(p, n) == Min(Times(p.multiplier, Backoff(p, n - 1)), p.ceiling)
  {
    var before, after := Power(p.multiplier, n - 2), Power(p.multiplier, n - 1);
    PowerGrows(p.multiplier, n - 2);
    assert after == Times(p.multiplier, before);
    hide Power, Times;
    Regroup(p.base, p.multiplier, before);
    AtLeast(before, p.base);
    CappedProduct(p.multiplier, Times(p.base, before), p.ceiling);
  }

  lemma Regroup(a: real, x: real, y: real)
    ensures Times(a, Times(x, y)) == Times(x, Times(a, y))
  {
  }

  /** Capping before multiplying makes no difference once the product is capped. */
  lemma CappedProduct(x: real, a: real, ceiling: real)
    requires x > 1.0 && a > 0.0 && ceiling > 0.0
    ensures Min(Times(x, Min(a, ceiling)), ceiling) == Min(Times(x, a), ceiling)
  {
    hide Times;
    AtLeast(x, a);
    AtLeast(x, ceiling);
  }

  /** The sum of the delays after the first `n` failures. */
  function BackoffSum(p: Policy, n: nat): real {
    if n == 0 then 0.0 else BackoffSum(p, n - 1) + Backoff(p, n)
  }

  // ----- the ledger ----------------------------------------------------------------------------

  predicate IsQuarantined<K(==)>(s: Ledger<K>, k: K) {
    k in s.quarantined || (s.markers.Some? && k in s.markers.value)
  }

  predicate Eligible<K(==)>(s: Ledger<K>, k: K, now: real) {
    !IsQuarantined(s, k) && (k in s.failures ==> s.failures[k].nextRetryAt <= now)
  }

  function Ready<K(==)>(s: Ledger<K>, items: seq<K>, now: real): seq<K> {
    if items == [] then []
    else Ready(s, items[..|items| - 1], now)
         + if Eligible(s, items[|items| - 1], now) then [items[|items| - 1]] else []
  }

  /** The ready items are exactly the eligible ones. */
  lemma {:induction false} ReadyExactly<K(!new)>(s: Ledger<K>, items: seq<K>, now: real)
    ensures forall k :: k in Ready(s, items, now) <==> k in items && Eligible(s, k, now)
  {
    hide Eligible;
    if items != [] {
      ReadyExactly(s, items[..|items| - 1], now);
      assert items == items[..|items| - 1] + [items[|items| - 1]];
    }
  }

  /** Attempts on record before the next one. */
  function Attempts<K(==)>(s: Ledger<K>, k: K): nat {
    if k in s.failures then s.failures[k].attempts else 0
  }

  /** `record_failure`. */
  function Failed<K(==)>(s: Ledger<K>, k: K, now: real, p: Policy): Ledger<K> {
    if IsQuarantined(s, k) then s
    else
      var attempts := Attempts(s, k) + 1;
      if attempts >= p.maxAttempts then
        Ledger(s.failures - {k}, s.quarantined + {k}, if s.markers.Some? then Some(s.markers.value + {k}) else None)
      else
        s.(failures := s.failures[k := FailureRecord(attempts, now + Backoff(p, attempts))])
  }

  /** The first `n` starts of a pass; a start that raises is recorded at once. */
  function AfterStarts<K(==)>(s: Ledger<K>, ready: seq<K>, n: nat, pass: Pass<K>, p: Policy): Ledger<K>
    requires n <= |ready|
  {
    if n == 0 then s
    else
      var t := AfterStarts(s, ready, n - 1, pass, p);
      if pass.raises(n - 1) then Failed(t, ready[n - 1], pass.now, p) else t
  }

  function Completed<K>(ready: seq<K>, n: nat, pass: Pass<K>): seq<K>
    requires n <= |ready|
  {
    if n == 0 then []
    else Completed(ready, n - 1, pass) + if pass.raises(n - 1) then [] else [ready[n - 1]]
  }

  /** The check of the first `n` completed items against what is still pending. */
  function AfterChecks<K(==)>(s: Ledger<K>, completed: seq<K>, n: nat, pass: Pass<K>, p: Policy): Ledger<K>
    requires n <= |completed|
  {
    if n == 0 then s
    else
      var t, k := AfterChecks(s, completed, n - 1, pass, p), completed[n - 1];
      if k in pass.remaining then Failed(t, k, pass.now, p) else t.(failures := t.failures - {k})
  }

  /** The items a pass starts: the eligible ones, in order, until it is asked to stop. */
  function Started<K(==)>(s: Ledger<K>, pass: Pass<K>): seq<K> {
    var ready := Ready(s, pass.items, pass.now);
    if pass.stopAfter < |ready| then ready[..pass.stopAfter] else ready
  }

  /** How many completed items are no longer pending. */
  function Advanced<K(==)>(completed: seq<K>, n: nat, pass: Pass<K>): nat
    requires n <= |completed|
  {
    if n == 0 then 0
    else Advanced(completed, n - 1, pass) + if completed[n - 1] in pass.remaining then 0 else 1
  }

  lemma {:induction false} AdvancedCounts<K(!new)>(completed: seq<K>, n: nat, pass: Pass<K>)
    requires n <= |completed|
    ensures Advanced(completed, n, pass) == |set i: nat | i < n && completed[i] !in pass.remaining|
  {
    var at := set i: nat | i < n && completed[i] !in pass.remaining;
    if n == 0 {
      assert at == {};
    } else {
      AdvancedCounts(completed, n - 1, pass);
      var before := set i: nat | i < n - 1 && completed[i] !in pass.remaining;
      if completed[n - 1] in pass.remaining {
        assert at == before;
      } else {
        assert at == before + {n - 1} && n - 1 !in before;
      }
    }
  }

  /** The ledger after one pass. */
  function AfterPass<K(==)>(s: Ledger<K>, pass: Pass<K>, p: Policy): Ledger<K> {
    var started := Started(s, pass);
    var completed := Completed(started, |started|, pass);
    AfterChecks(AfterStarts(s, started, |started|, pass, p), completed, |completed|, pass, p)
  }

  /** `_sleep_duration`. */
  function SleepDuration(poll: real, r: RunOnceResult): real {
    if r.nextRetryDelay.None? then poll else Min(poll, r.nextRetryDelay.value)
  }

  // ----- the next delay ------------------------------------------------------------------------

  /** The delay recording a failure of `k` gives out; none when it is or becomes quarantined. */
  function GivenOut<K(==)>(s: Ledger<K>, k: K, p: Policy): seq<real> {
    if IsQuarantined(s, k) || Attempts(s, k) + 1 >= p.maxAttempts then [] else [Backoff(p, Attempts(s, k) + 1)]
  }

  function StartDelays<K(==)>(s: Ledger<K>, ready: seq<K>, n: nat, pass: Pass<K>, p: Policy): seq<real>
    requires n <= |ready|
  {
    if n == 0 then []
    else
      StartDelays(s, ready, n - 1, pass, p)
      + if pass.raises(n - 1) then GivenOut(AfterStarts(s, ready, n - 1, pass, p), ready[n - 1], p) else []
  }

  function CheckDelays<K(==)>(s: Ledger<K>, completed: seq<K>, n: nat, pass: Pass<K>, p: Policy): seq<real>
    requires n <= |completed|
  {
    if n == 0 then []
    else
      CheckDelays(s, completed, n - 1, pass, p)
      + if completed[n - 1] in pass.remaining then GivenOut(AfterChecks(s, completed, n - 1, pass, p), completed[n - 1], p)
        else []
  }

  /** All delays a pass gives out, in order. */
  function PassDelays<K(==)>(s: Ledger<K>, pass: Pass<K>, p: Policy): seq<real> {
    var started := Started(s, pass);
    var completed := Completed(started, |started|, pass);
    StartDelays(s, started, |started|, pass, p)
    + CheckDelays(AfterStarts(s, started, |started|, pass, p), completed, |completed|, pass, p)
  }

  /** The waits still ahead of the listed items. */
  function Waits<K(==)>(s: Ledger<K>, items: seq<K>, now: real): seq<real> {
    if items == [] then []
    else
      var k := items[|items| - 1];
      Waits(s, items[..|items| - 1], now)
      + if k in s.failures && s.failures[k].nextRetryAt > now then [s.failures[k].nextRetryAt - now] else []
  }

  /** A listed item waits `d` more seconds. */
  ghost predicate SomeWaits<K(!new)>(s: Ledger<K>, items: seq<K>, now: real, d: real) {
    d > 0.0 && exists k :: k in items && k in s.failures && s.failures[k].nextRetryAt == now + d
  }

  lemma {:induction false} WaitsExactly<K(!new)>(s: Ledger<K>, items: seq<K>, now: real, d: real)
    ensures d in Waits(s, items, now) <==> SomeWaits(s, items, now, d)
  {
    if items != [] {
      var most, k := items[..|items| - 1], items[|items| - 1];
      WaitsExactly(s, most, now, d);
      assert items == most + [k];
    }
  }

  function Least(delays: seq<real>): Option<real> {
    if delays == [] then None
    else
      var least, last := Least(delays[..|delays| - 1]), delays[|delays| - 1];
      if least.None? then Some(last) else Some(Min(least.value, last))
  }

  lemma {:induction false} LeastIs(delays: seq<real>)
    ensures Least(delays).None? <==> delays == []
    ensures Least(delays).Some? ==> Least(delays).value in delays
    ensures Least(delays).Some? ==> forall d :: d in delays ==> Least(delays).value <= d
  {
    if delays != [] {
      var most := delays[..|delays| - 1];
      LeastIs(most);
      assert delays == most + [delays[|delays| - 1]];
    }
  }

  /** The delay until the next pass has something to retry: the least given out in this one, or else the
      least wait ahead of its items. */
  function NextDelay<K(==)>(s: Ledger<K>, pass: Pass<K>, p: Policy): Option<real> {
    if PassDelays(s, pass, p) != [] then Least(PassDelays(s, pass, p))
    else Least(Waits(AfterPass(s, pass, p), pass.items, pass.now))
  }

  lemma LeastOfOneMore(delays: seq<real>, d: real)
    ensures Least(delays + [d]) == if Least(delays).None? then Some(d) else Some(Min(Least(delays).value, d))
  {
    assert (delays + [d])[..|delays|] == delays;
  }

  // ----- the methods ---------------------------------------------------------------------------

  class WorkLoopState<K(==, !new)> {
    var failures: map<K, FailureRecord>
    var quarantined: set<K>
    var markers: Option<set<K>>

    constructor (markers: Option<set<K>>)
      ensures Value() == Ledger(map[], {}, markers)
    {
      this.failures, this.quarantined, this.markers := map[], {}, markers;
    }

    function Value(): Ledger<K>
      reads this
    {
      Ledger(failures, quarantined, markers)
    }

    method EligibleItems(items: seq<K>, now: real) returns (ready: seq<K>, skipped: nat)
      ensures ready == Ready(Value(), items, now) && skipped + |ready| == |items|
      ensures forall k :: k in ready <==>
                k in items && k !in quarantined && (markers.Some? ==> k !in markers.value)
                && (k in failures ==> failures[k].nextRetryAt <= now)
    {
      ready, skipped := [], 0;
      for i := 0 to |items|
        invariant ready == Ready(Value(), items[..i], now) && skipped + |ready| == i
      {
        assert items[..i + 1][..i] == items[..i];
        var k := items[i];
        if IsQuarantined(Value(), k) || (k in failures && failures[k].nextRetryAt > now) {
          skipped := skipped + 1;
        } else {
          ready := ready + [k];
        }
      }
      assert items[..|items|] == items;
      ReadyExactly(Value(), items, now);
    }

    method RecordFailure(k: K, now: real, p: Policy) returns (didQuarantine: bool, delay: Option<real>)
      requires ValidPolicy(p)
      modifies this
      ensures Value() == Failed(old(Value()), k, now, p)
      ensures didQuarantine <==> !IsQuarantined(old(Value()), k) && IsQuarantined(Value(), k)
      ensures |quarantined| == |old(quarantined)| + if didQuarantine then 1 else 0
      ensures delay.Some? <==> !IsQuarantined(Value(), k)
      ensures GivenOut(old(Value()), k, p) == if delay.None? then [] else [delay.value]
      ensures delay.Some? ==> delay.value == Backoff(p, Attempts(Value(), k))
                              && k in failures && failures[k].nextRetryAt == now + delay.value
      ensures delay.Some? ==>
        delay.value == if k !in old(failures) || old(failures)[k].attempts == 0 then p.base
                       else Min(p.multiplier * Backoff(p, old(failures)[k].attempts), p.ceiling)
    {
      hide Backoff;
      if IsQuarantined(Value(), k) { return false, None; }
      var attempts := Attempts(Value(), k) + 1;
      if attempts >= p.maxAttempts {
        failures := failures - {k};
        quarantined := quarantined + {k};
        if markers.Some? { markers := Some(markers.value + {k}); }
        return true, None;
      }
      var d := Backoff(p, attempts);
      BackoffGrows(p, attempts);
      failures := failures[k := FailureRecord(attempts, now + d)];
      return false, Some(d);
    }

    /** Seconds until the next skipped item becomes eligible: the least wait ahead. */
    method NextReadyDelay(items: seq<K>, now: real) returns (delay: Option<real>)
      ensures delay == Least(Waits(Value(), items, now))
      ensures delay.Some? ==> SomeWaits(Value(), items, now, delay.value)
      ensures forall d :: SomeWaits(Value(), items, now, d) ==> delay.Some? && delay.value <= d
    {
      hide Least, SomeWaits;
      delay := None;
      assert delay == Least([]) by { LeastIs([]); }
      for i := 0 to |items|
        invariant delay == Least(Waits(Value(), items[..i], now))
      {
        assert items[..i + 1][..i] == items[..i];
        if items[i] in failures && failures[items[i]].nextRetryAt > now {
          var d := failures[items[i]].nextRetryAt - now;
          LeastOfOneMore(Waits(Value(), items[..i], now), d);
          delay := if delay.None? then Some(d) else Some(Min(delay.value, d));
        } else {
          assert Waits(Value(), items[..i], now) + [] == Waits(Value(), items[..i], now);
        }
      }
      assert items[..|items|] == items;
      LeastIs(Waits(Value(), items, now));
      forall d ensures d in Waits(Value(), items, now) <==> SomeWaits(Value(), items, now, d) {
        WaitsExactly(Value(), items, now, d);
      }
    }

    /** Keeping the least of the delays given out so far. */
    method Keep(least: Option<real>, delay: Option<real>, ghost before: seq<real>) returns (r: Option<real>)
      requires least == Least(before)
      ensures r == Least(before + if delay.None? then [] else [delay.value])
    {
      if delay.None? {
        assert before + [] == before;
        return least;
      }
      LeastOfOneMore(before, delay.value);
      return if least.None? then delay else Some(Min(least.value, delay.value));
    }

    /** `run_once`; the next delay is the least given out in the pass, or else the least wait ahead of
        its items. */
    method RunOnce(pass: Pass<K>, p: Policy) returns (r: RunOnceResult)
      requires ValidPolicy(p)
      modifies this
      ensures Value() == AfterPass(old(Value()), pass, p)
      ensures r.found == |pass.items|
      ensures r.attempted == |Started(old(Value()), pass)|
      ensures var completed := Completed(Started(old(Value()), pass), r.attempted, pass);
              && r.failed == r.attempted - |completed|
              && r.advanced == |set i: nat | i < |completed| && completed[i] !in pass.remaining|
              && r.noProgress == |completed| - r.advanced
      ensures r.quarantined == |quarantined| - |old(quarantined)|
      ensures r.skipped == |pass.items| - |Ready(old(Value()), pass.items, pass.now)|
      ensures r.nextRetryDelay == NextDelay(old(Value()), pass, p)
      ensures var waits := r.nextRetryDelay.Some? && r.nextRetryDelay.value < p.poll;
              SleepDuration(p.poll, r) == if waits then r.nextRetryDelay.value else p.poll
    {
      hide Failed, Backoff, Ready, IsQuarantined, GivenOut, Least, Waits, SomeWaits;
      var ready, skipped := EligibleItems(pass.items, pass.now);
      ghost var before, started := Value(), Started(Value(), pass);
      var completed: seq<K> := [];
      var attempted, failed, quarantines := 0, 0, 0;
      var least: Option<real> := None;
      assert least == Least([]) by { LeastIs([]); }
      while attempted < |ready| && attempted < pass.stopAfter
        invariant 0 <= attempted <= |started|
        invariant Value() == AfterStarts(before, started, attempted, pass, p)
        invariant completed == Completed(started, attempted, pass)
        invariant failed >= 0 && failed + |completed| == attempted
        invariant quarantines == |quarantined| - |old(quarantined)| >= 0
        invariant least == Least(StartDelays(before, started, attempted, pass, p))
      {
        var k := ready[attempted];
        ghost var delays := StartDelays(before, started, attempted, pass, p);
        if pass.raises(attempted) {
          failed := failed + 1;
          var didQuarantine, delay := RecordFailure(k, pass.now, p);
          quarantines := quarantines + if didQuarantine then 1 else 0;
          least := Keep(least, delay, delays);
        } else {
          completed := completed + [k];
          assert delays + [] == delays;
        }
        attempted := attempted + 1;
      }
      assert attempted == |started|;
      ghost var checked, startDelays := Value(), StartDelays(before, started, attempted, pass, p);
      var advanced, noProgress := 0, 0;
      assert startDelays + [] == startDelays;
      for i := 0 to |completed|
        invariant Value() == AfterChecks(checked, completed, i, pass, p)
        invariant noProgress >= 0 && advanced == Advanced(completed, i, pass) && advanced + noProgress == i
        invariant quarantines == |quarantined| - |old(quarantined)| >= 0
        invariant least == Least(startDelays + CheckDelays(checked, completed, i, pass, p))
      {
        var k := completed[i];
        ghost var delays := CheckDelays(checked, completed, i, pass, p);
        if k in pass.remaining {
          noProgress := noProgress + 1;
          var didQuarantine, delay := RecordFailure(k, pass.now, p);
          quarantines := quarantines + if didQuarantine then 1 else 0;
          least := Keep(least, delay, startDelays + delays);
          assert (startDelays + delays) + (if delay.None? then [] else [delay.value])
              == startDelays + (delays + if delay.None? then [] else [delay.value]);
        } else {
          advanced := advanced + 1;
          failures := failures - {k};
          assert delays + [] == delays;
        }
      }
      AdvancedCounts(completed, |completed|, pass);
      assert least.None? <==> PassDelays(before, pass, p) == [] by { LeastIs(PassDelays(before, pass, p)); }
      if least.None? { least := NextReadyDelay(pass.items, pass.now); }
      return RunOnceResult(|pass.items|, attempted, advanced, failed, noProgress, skipped, quarantines, least);
    }
  }
}
