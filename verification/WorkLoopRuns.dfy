/** What the work loop keeps over any number of passes: the attempt cap, quarantine for good, the
    spacing of retries, and a bound on all the work a shrinking pool can cause. */
module WorkLoopRuns {
  import opened Options
  import opened WorkLoop

  predicate Distinct<K(==)>(s: seq<K>) { forall i, j :: 0 <= i < j < |s| ==> s[i] != s[j] }

  // ----- one pass, seen from one item ----------------------------------------------------------

  /** All the ledger says of one item. */
  datatype Entry = Entry(record: Option<FailureRecord>, quarantined: bool)

  function EntryOf<K(==)>(s: Ledger<K>, k: K): Entry {
    Entry(if k in s.failures then Some(s.failures[k]) else None, IsQuarantined(s, k))
  }

  function Tried(e: Entry): nat { if e.record.Some? then e.record.value.attempts else 0 }

  function EntryFailed(e: Entry, now: real, p: Policy): Entry {
    if e.quarantined then e
    else if Tried(e) + 1 >= p.maxAttempts then Entry(None, true)
    else Entry(Some(FailureRecord(Tried(e) + 1, now + Backoff(p, Tried(e) + 1))), false)
  }

  /** What a pass does with an item: leaves it, sees it fail or stay pending, or sees it advance. */
  datatype Fate = Left | Retried | Advanced

  ghost function FateOf<K(!new)>(s: Ledger<K>, pass: Pass<K>, k: K): Fate {
    var started := Started(s, pass);
    if k !in started then Left
    else if k in pass.remaining || exists i :: 0 <= i < |started| && started[i] == k && pass.raises(i) then Retried
    else Advanced
  }

  function EntryAfter(e: Entry, fate: Fate, now: real, p: Policy): Entry {
    match fate
    case Left => e
    case Retried => EntryFailed(e, now, p)
    case Advanced => e.(record := None)
  }

  lemma FailedEntry<K(!new)>(s: Ledger<K>, k: K, now: real, p: Policy, x: K)
    ensures EntryOf(Failed(s, k, now, p), x) == if x == k then EntryFailed(EntryOf(s, x), now, p) else EntryOf(s, x)
  {
  }

  lemma {:induction false} ReadyIs<K(!new)>(s: Ledger<K>, items: seq<K>, now: real)
    ensures forall k :: k in Ready(s, items, now) ==> k in items && Eligible(s, k, now)
    ensures Distinct(items) ==> Distinct(Ready(s, items, now))
  {
    if items != [] {
      var most := items[..|items| - 1];
      ReadyIs(s, most, now);
      if Distinct(items) {
        assert forall i :: 0 <= i < |most| ==> most[i] == items[i];
        assert items[|items| - 1] !in most;
      }
    }
  }

  lemma StartedIs<K(!new)>(s: Ledger<K>, pass: Pass<K>)
    requires Distinct(pass.items)
    ensures Distinct(Started(s, pass))
    ensures forall k :: k in Started(s, pass) ==> k in pass.items && Eligible(s, k, pass.now)
  {
    ReadyIs(s, pass.items, pass.now);
  }

  /** A pass that is not asked to stop starts exactly the items that are neither quarantined nor waiting. */
  lemma PassStartsExactly<K(!new)>(s: Ledger<K>, pass: Pass<K>, k: K)
    requires pass.stopAfter >= |Ready(s, pass.items, pass.now)|
    ensures k in Started(s, pass) <==>
            k in pass.items && k !in s.quarantined && (s.markers.Some? ==> k !in s.markers.value)
            && (k in s.failures ==> s.failures[k].nextRetryAt <= pass.now)
  {
    ReadyExactly(s, pass.items, pass.now);
  }

  lemma {:induction false} StartsEntry<K(!new)>(s: Ledger<K>, ready: seq<K>, n: nat, pass: Pass<K>, p: Policy, x: K)
    requires n <= |ready| && Distinct(ready)
    ensures EntryOf(AfterStarts(s, ready, n, pass, p), x) ==
            if exists i :: 0 <= i < n && ready[i] == x && pass.raises(i)
            then EntryFailed(EntryOf(s, x), pass.now, p) else EntryOf(s, x)
  {
    hide EntryFailed, EntryOf, Failed;
    if n > 0 {
      StartsEntry(s, ready, n - 1, pass, p, x);
      FailedEntry(AfterStarts(s, ready, n - 1, pass, p), ready[n - 1], pass.now, p, x);
    }
  }

  lemma {:induction false} CompletedIs<K(!new)>(ready: seq<K>, n: nat, pass: Pass<K>)
    requires n <= |ready| && Distinct(ready)
    ensures forall x :: x in Completed(ready, n, pass) <==> exists i :: 0 <= i < n && ready[i] == x && !pass.raises(i)
    ensures Distinct(Completed(ready, n, pass))
  {
    if n > 0 {
      CompletedIs(ready, n - 1, pass);
      var most := Completed(ready, n - 1, pass);
      assert ready[n - 1] !in most;
      assert forall i :: 0 <= i < |most| ==> most[i] in most;
    }
  }

  lemma {:induction false} ChecksEntry<K(!new)>(s: Ledger<K>, completed: seq<K>, n: nat, pass: Pass<K>, p: Policy, x: K)
    requires n <= |completed| && Distinct(completed)
    ensures EntryOf(AfterChecks(s, completed, n, pass, p), x) ==
            if !(exists i :: 0 <= i < n && completed[i] == x) then EntryOf(s, x)
            else if x in pass.remaining then EntryFailed(EntryOf(s, x), pass.now, p)
            else EntryOf(s, x).(record := None)
  {
    hide EntryFailed, Failed;
    if n > 0 {
      ChecksEntry(s, completed, n - 1, pass, p, x);
      FailedEntry(AfterChecks(s, completed, n - 1, pass, p), completed[n - 1], pass.now, p, x);
    }
  }

  /** A pass touches each item on its own, by its fate. */
  lemma PassEntry<K(!new)>(s: Ledger<K>, pass: Pass<K>, p: Policy, x: K)
    requires Distinct(pass.items)
    ensures EntryOf(AfterPass(s, pass, p), x) == EntryAfter(EntryOf(s, x), FateOf(s, pass, x), pass.now, p)
  {
    hide EntryFailed, EntryOf, AfterStarts, AfterChecks, Completed, Started;
    var started := Started(s, pass);
    StartedIs(s, pass);
    CompletedIs(started, |started|, pass);
    var completed := Completed(started, |started|, pass);
    var t := AfterStarts(s, started, |started|, pass, p);
    StartsEntry(s, started, |started|, pass, p, x);
    ChecksEntry(t, completed, |completed|, pass, p, x);
    assert x in completed <==> exists i :: 0 <= i < |completed| && completed[i] == x;
    if i :| 0 <= i < |started| && started[i] == x {
      assert forall j :: 0 <= j < |started| && started[j] == x ==> j == i;
    }
  }

  // ----- the delays a pass gives out -----------------------------------------------------------

  /** A failure of the item gives out this delay. */
  ghost predicate Gives(e: Entry, p: Policy, d: real) {
    !e.quarantined && Tried(e) + 1 < p.maxAttempts && d == Backoff(p, Tried(e) + 1)
  }

  lemma GivenOutIs<K(!new)>(s: Ledger<K>, k: K, p: Policy, d: real)
    ensures d in GivenOut(s, k, p) <==> Gives(EntryOf(s, k), p, d)
  {
  }

  lemma {:induction false} StartDelaysAre<K(!new)>(s: Ledger<K>, ready: seq<K>, n: nat, pass: Pass<K>, p: Policy, d: real)
    requires n <= |ready| && Distinct(ready)
    ensures d in StartDelays(s, ready, n, pass, p) <==>
            exists i :: 0 <= i < n && pass.raises(i) && Gives(EntryOf(s, ready[i]), p, d)
  {
    hide Gives, GivenOut, EntryOf, EntryFailed, AfterStarts;
    if n > 0 {
      StartDelaysAre(s, ready, n - 1, pass, p, d);
      var t := AfterStarts(s, ready, n - 1, pass, p);
      GivenOutIs(t, ready[n - 1], p, d);
      StartsEntry(s, ready, n - 1, pass, p, ready[n - 1]);
    }
  }

  lemma {:induction false} CheckDelaysAre<K(!new)>(s: Ledger<K>, completed: seq<K>, n: nat, pass: Pass<K>, p: Policy, d: real)
    requires n <= |completed| && Distinct(completed)
    ensures d in CheckDelays(s, completed, n, pass, p) <==>
            exists i :: 0 <= i < n && completed[i] in pass.remaining && Gives(EntryOf(s, completed[i]), p, d)
  {
    hide Gives, GivenOut, EntryOf, EntryFailed, AfterChecks;
    if n > 0 {
      CheckDelaysAre(s, completed, n - 1, pass, p, d);
      var t := AfterChecks(s, completed, n - 1, pass, p);
      GivenOutIs(t, completed[n - 1], p, d);
      ChecksEntry(s, completed, n - 1, pass, p, completed[n - 1]);
    }
  }

  /** An item the pass tried in vain has a retry `d` seconds ahead on record. */
  ghost predicate RetryGiven<K(!new)>(s: Ledger<K>, pass: Pass<K>, p: Policy, k: K, d: real) {
    var t := AfterPass(s, pass, p);
    FateOf(s, pass, k) == Retried && k in t.failures && t.failures[k].nextRetryAt == pass.now + d
  }

  ghost predicate SomeRetryGiven<K(!new)>(s: Ledger<K>, pass: Pass<K>, p: Policy, d: real) {
    exists k :: RetryGiven(s, pass, p, k, d)
  }

  lemma RetriesGive<K(!new)>(s: Ledger<K>, pass: Pass<K>, p: Policy, k: K, d: real)
    requires Distinct(pass.items)
    ensures RetryGiven(s, pass, p, k, d) <==> FateOf(s, pass, k) == Retried && Gives(EntryOf(s, k), p, d)
  {
    PassEntry(s, pass, p, k);
    StartedIs(s, pass);
    hide Backoff, AfterPass, Started;
    var e, t := EntryOf(s, k), AfterPass(s, pass, p);
    if FateOf(s, pass, k) == Retried {
      assert k in Started(s, pass) && !e.quarantined;
      assert EntryOf(t, k) == EntryFailed(e, pass.now, p);
      assert k in t.failures <==> Tried(e) + 1 < p.maxAttempts;
      if k in t.failures {
        assert t.failures[k] == FailureRecord(Tried(e) + 1, pass.now + Backoff(p, Tried(e) + 1));
      }
    }
  }

  ghost predicate StartRaised<K(!new)>(started: seq<K>, pass: Pass<K>, k: K) {
    exists i :: 0 <= i < |started| && started[i] == k && pass.raises(i)
  }

  lemma NotRaisedCompletes<K(!new)>(started: seq<K>, pass: Pass<K>, k: K)
    requires Distinct(started)
    ensures k in Completed(started, |started|, pass) <==> k in started && !StartRaised(started, pass, k)
  {
    CompletedIs(started, |started|, pass);
    hide Completed;
    if i :| 0 <= i < |started| && started[i] == k {
      assert forall j :: 0 <= j < |started| && started[j] == k ==> j == i;
    }
  }

  /** A started item was tried in vain when a start of it raised, or it completed and is still pending. */
  lemma TriedInVain<K(!new)>(s: Ledger<K>, pass: Pass<K>, k: K)
    requires Distinct(pass.items)
    ensures var started := Started(s, pass);
            FateOf(s, pass, k) == Retried <==>
              StartRaised(started, pass, k) || (k in pass.remaining && k in Completed(started, |started|, pass))
  {
    StartedIs(s, pass);
    NotRaisedCompletes(Started(s, pass), pass, k);
    hide Started, Completed;
    assert StartRaised(Started(s, pass), pass, k) ==> k in Started(s, pass);
  }

  /** Completed items were not failed by the starts. */
  lemma CompletedUntouched<K(!new)>(s: Ledger<K>, pass: Pass<K>, p: Policy, k: K)
    requires Distinct(pass.items)
    requires var started := Started(s, pass); k in Completed(started, |started|, pass)
    ensures var started := Started(s, pass); EntryOf(AfterStarts(s, started, |started|, pass, p), k) == EntryOf(s, k)
  {
    StartedIs(s, pass);
    var started := Started(s, pass);
    CompletedIs(started, |started|, pass);
    StartsEntry(s, started, |started|, pass, p, k);
    hide Started, Completed, AfterStarts, EntryOf;
  }

  /** The delays a pass gives out are exactly the waits of the items it tried in vain and did not
      quarantine. */
  lemma DelaysExactly<K(!new)>(s: Ledger<K>, pass: Pass<K>, p: Policy, d: real)
    requires Distinct(pass.items)
    ensures d in PassDelays(s, pass, p) <==> SomeRetryGiven(s, pass, p, d)
  {
    var started := Started(s, pass);
    var completed := Completed(started, |started|, pass);
    var t := AfterStarts(s, started, |started|, pass, p);
    StartedIs(s, pass);
    CompletedIs(started, |started|, pass);
    hide Gives, Started, Completed, AfterStarts, EntryOf, RetryGiven, StartDelays, CheckDelays, FateOf;
    StartDelaysAre(s, started, |started|, pass, p, d);
    CheckDelaysAre(t, completed, |completed|, pass, p, d);
    if d in StartDelays(s, started, |started|, pass, p) {
      var i :| 0 <= i < |started| && pass.raises(i) && Gives(EntryOf(s, started[i]), p, d);
      TriedInVain(s, pass, started[i]);
      RetriesGive(s, pass, p, started[i], d);
    } else if d in CheckDelays(t, completed, |completed|, pass, p) {
      var i :| 0 <= i < |completed| && completed[i] in pass.remaining && Gives(EntryOf(t, completed[i]), p, d);
      TriedInVain(s, pass, completed[i]);
      CompletedUntouched(s, pass, p, completed[i]);
      RetriesGive(s, pass, p, completed[i], d);
    } else if k :| RetryGiven(s, pass, p, k, d) {
      RetriesGive(s, pass, p, k, d);
      TriedInVain(s, pass, k);
      if k in completed { CompletedUntouched(s, pass, p, k); }
    }
  }

  /** When the next pass has something to retry: after the least delay given out in this one, or, when
      it gave out none, after the least wait still ahead of its items. */
  lemma NextDelayExactly<K(!new)>(s: Ledger<K>, pass: Pass<K>, p: Policy)
    requires Distinct(pass.items)
    ensures var next, t := NextDelay(s, pass, p), AfterPass(s, pass, p);
            if exists d :: SomeRetryGiven(s, pass, p, d) then
              && next.Some? && SomeRetryGiven(s, pass, p, next.value)
              && forall d :: SomeRetryGiven(s, pass, p, d) ==> next.value <= d
            else
              && (next.Some? ==> SomeWaits(t, pass.items, pass.now, next.value))
              && forall d :: SomeWaits(t, pass.items, pass.now, d) ==> next.Some? && next.value <= d
  {
    var delays, waits := PassDelays(s, pass, p), Waits(AfterPass(s, pass, p), pass.items, pass.now);
    hide SomeRetryGiven, PassDelays, Waits, SomeWaits, Least, AfterPass;
    LeastIs(delays);
    LeastIs(waits);
    forall d ensures d in delays <==> SomeRetryGiven(s, pass, p, d) { DelaysExactly(s, pass, p, d); }
    forall d ensures d in waits <==> SomeWaits(AfterPass(s, pass, p), pass.items, pass.now, d) {
      WaitsExactly(AfterPass(s, pass, p), pass.items, pass.now, d);
    }
    if delays != [] { assert delays[0] in delays; }
  }

  // ----- any number of passes ------------------------------------------------------------------

  ghost predicate ValidRun<K(!new)>(s0: Ledger<K>, passes: seq<Pass<K>>, p: Policy) {
    && ValidPolicy(p) && s0.failures == map[]
    && forall i :: 0 <= i < |passes| ==> Distinct(passes[i].items)
  }

  /** The ledger before pass `n` of a run that starts with no failures on record. */
  ghost function At<K(!new)>(s0: Ledger<K>, passes: seq<Pass<K>>, p: Policy, n: nat): Ledger<K>
    requires n <= |passes|
  {
    if n == 0 then s0 else AfterPass(At(s0, passes, p, n - 1), passes[n - 1], p)
  }

  ghost function FateAt<K(!new)>(s0: Ledger<K>, passes: seq<Pass<K>>, p: Policy, n: nat, k: K): Fate
    requires n < |passes|
  {
    FateOf(At(s0, passes, p, n), passes[n], k)
  }

  /** How often the item was processed in the first `n` passes since it last advanced. */
  ghost function Tries<K(!new)>(s0: Ledger<K>, passes: seq<Pass<K>>, p: Policy, n: nat, k: K): nat
    requires n <= |passes|
  {
    if n == 0 then 0
    else
      match FateAt(s0, passes, p, n - 1, k)
      case Left => Tries(s0, passes, p, n - 1, k)
      case Retried => Tries(s0, passes, p, n - 1, k) + 1
      case Advanced => 0
  }

  /** When the first of those tries took place. */
  ghost function FirstTry<K(!new)>(s0: Ledger<K>, passes: seq<Pass<K>>, p: Policy, n: nat, k: K): real
    requires n <= |passes|
  {
    if n == 0 then 0.0
    else if FateAt(s0, passes, p, n - 1, k) == Retried && Tries(s0, passes, p, n - 1, k) == 0 then passes[n - 1].now
    else FirstTry(s0, passes, p, n - 1, k)
  }

  /** The ledger's record of an item is its history. */
  ghost predicate Faithful(e: Entry, tries: nat, first: real, p: Policy) {
    && (e.quarantined ==> tries <= p.maxAttempts)
    && (!e.quarantined ==> tries == Tried(e) && tries < p.maxAttempts && (e.record.Some? <==> tries >= 1))
    && (!e.quarantined && e.record.Some? ==> e.record.value.nextRetryAt >= first + BackoffSum(p, tries))
  }

  lemma StepFaithful(e: Entry, tries: nat, first: real, fate: Fate, now: real, p: Policy)
    requires ValidPolicy(p) && Faithful(e, tries, first, p)
    requires fate != Left ==> !e.quarantined && (e.record.Some? ==> e.record.value.nextRetryAt <= now)
    ensures Faithful(EntryAfter(e, fate, now, p),
                     match fate case Left => tries case Retried => tries + 1 case Advanced => 0,
                     if fate == Retried && tries == 0 then now else first, p)
  {
    hide Backoff;
    assert BackoffSum(p, tries + 1) == BackoffSum(p, tries) + Backoff(p, tries + 1);
  }

  lemma {:induction false} RunFaithful<K(!new)>(s0: Ledger<K>, passes: seq<Pass<K>>, p: Policy, n: nat, k: K)
    requires ValidRun(s0, passes, p) && n <= |passes|
    ensures Faithful(EntryOf(At(s0, passes, p, n), k), Tries(s0, passes, p, n, k), FirstTry(s0, passes, p, n, k), p)
  {
    hide AfterPass, FateOf, EntryAfter;
    if n > 0 {
      RunFaithful(s0, passes, p, n - 1, k);
      var s, pass := At(s0, passes, p, n - 1), passes[n - 1];
      PassEntry(s, pass, p, k);
      StartedOnlyIfEligible(s, pass, k);
      StepFaithful(EntryOf(s, k), Tries(s0, passes, p, n - 1, k), FirstTry(s0, passes, p, n - 1, k),
                   FateOf(s, pass, k), pass.now, p);
    }
  }

  lemma StartedOnlyIfEligible<K(!new)>(s: Ledger<K>, pass: Pass<K>, k: K)
    requires Distinct(pass.items)
    ensures FateOf(s, pass, k) != Left ==> Eligible(s, k, pass.now) && k in pass.items
    ensures FateOf(s, pass, k) == Advanced ==> k !in pass.remaining
    ensures FateOf(s, pass, k) != Left <==> k in Started(s, pass)
  {
    StartedIs(s, pass);
  }

  /** An item is processed at most `maxAttempts` times since it last advanced, and only while it
      has been tried fewer times than that. */
  lemma AttemptsAreCapped<K(!new)>(s0: Ledger<K>, passes: seq<Pass<K>>, p: Policy, n: nat, k: K)
    requires ValidRun(s0, passes, p) && n <= |passes|
    ensures Tries(s0, passes, p, n, k) <= p.maxAttempts
    ensures n < |passes| && FateAt(s0, passes, p, n, k) != Left ==> Tries(s0, passes, p, n, k) < p.maxAttempts
  {
    RunFaithful(s0, passes, p, n, k);
    if n < |passes| { StartedOnlyIfEligible(At(s0, passes, p, n), passes[n], k); }
  }

  /** A quarantined item is never processed again, and stays quarantined. */
  lemma {:induction false} QuarantineIsFinal<K(!new)>(s0: Ledger<K>, passes: seq<Pass<K>>, p: Policy, m: nat, n: nat, k: K)
    requires ValidRun(s0, passes, p) && m <= n <= |passes|
    requires IsQuarantined(At(s0, passes, p, m), k)
    ensures IsQuarantined(At(s0, passes, p, n), k)
    ensures n < |passes| ==> FateAt(s0, passes, p, n, k) == Left
  {
    hide AfterPass, FateOf, IsQuarantined;
    if m < n {
      QuarantineIsFinal(s0, passes, p, m, n - 1, k);
      QuarantinedIsLeft(At(s0, passes, p, n - 1), passes[n - 1], p, k);
    }
    if n < |passes| { QuarantinedIsLeft(At(s0, passes, p, n), passes[n], p, k); }
  }

  lemma QuarantinedIsLeft<K(!new)>(s: Ledger<K>, pass: Pass<K>, p: Policy, k: K)
    requires Distinct(pass.items) && IsQuarantined(s, k)
    ensures FateOf(s, pass, k) == Left && IsQuarantined(AfterPass(s, pass, p), k)
  {
    hide AfterPass, FateOf, EntryFailed, Started;
    StartedOnlyIfEligible(s, pass, k);
    PassEntry(s, pass, p, k);
    assert EntryOf(s, k).quarantined;
  }

  /** After c tries that did not advance it, an item is processed again no earlier than the first
      of them plus the sum of the first c delays. */
  lemma RetriesAreSpaced<K(!new)>(s0: Ledger<K>, passes: seq<Pass<K>>, p: Policy, n: nat, k: K)
    requires ValidRun(s0, passes, p) && n < |passes|
    requires FateAt(s0, passes, p, n, k) != Left && Tries(s0, passes, p, n, k) >= 1
    ensures passes[n].now >= FirstTry(s0, passes, p, n, k) + BackoffSum(p, Tries(s0, passes, p, n, k))
  {
    RunFaithful(s0, passes, p, n, k);
    StartedOnlyIfEligible(At(s0, passes, p, n), passes[n], k);
  }

  // ----- a pool that only shrinks --------------------------------------------------------------

  /** Nothing new becomes pending, and what is no longer pending stays so. */
  ghost predicate Shrinks<K(!new)>(passes: seq<Pass<K>>, pool: seq<K>) {
    && Distinct(pool)
    && (forall i, k :: 0 <= i < |passes| && k in passes[i].items ==> k in pool)
    && (forall i, k :: 0 <= i < |passes| - 1 && k in passes[i + 1].items ==> k in passes[i].remaining)
    && (forall i, k :: 0 <= i < |passes| && k in passes[i].remaining ==> k in passes[i].items)
  }

  /** Whether the item advanced in one of the first `n` passes. */
  ghost predicate HasAdvanced<K(!new)>(s0: Ledger<K>, passes: seq<Pass<K>>, p: Policy, n: nat, k: K)
    requires n <= |passes|
  {
    exists i :: 0 <= i < n && FateAt(s0, passes, p, i, k) == Advanced
  }

  /** How often the item was processed in the first `n` passes. */
  ghost function Starts<K(!new)>(s0: Ledger<K>, passes: seq<Pass<K>>, p: Policy, n: nat, k: K): nat
    requires n <= |passes|
  {
    if n == 0 then 0
    else Starts(s0, passes, p, n - 1, k) + if FateAt(s0, passes, p, n - 1, k) == Left then 0 else 1
  }

  lemma {:induction false} AdvancedIsGone<K(!new)>(s0: Ledger<K>, passes: seq<Pass<K>>, p: Policy, pool: seq<K>, i: nat, n: nat, k: K)
    requires ValidRun(s0, passes, p) && Shrinks(passes, pool) && i < n < |passes|
    requires FateAt(s0, passes, p, i, k) == Advanced
    ensures k !in passes[n].items && FateAt(s0, passes, p, n, k) == Left
  {
    hide At, FateOf, Eligible;
    StartedOnlyIfEligible(At(s0, passes, p, i), passes[i], k);
    StartedOnlyIfEligible(At(s0, passes, p, n), passes[n], k);
    if i < n - 1 {
      AdvancedIsGone(s0, passes, p, pool, i, n - 1, k);
      assert k !in passes[n - 1].remaining;
    }
  }

  lemma {:induction false} StartsAreCapped<K(!new)>(s0: Ledger<K>, passes: seq<Pass<K>>, p: Policy, pool: seq<K>, n: nat, k: K)
    requires ValidRun(s0, passes, p) && Shrinks(passes, pool) && n <= |passes|
    ensures Starts(s0, passes, p, n, k) <= p.maxAttempts
    ensures !HasAdvanced(s0, passes, p, n, k) ==> Starts(s0, passes, p, n, k) == Tries(s0, passes, p, n, k)
  {
    hide FateAt, At;
    if n > 0 {
      StartsAreCapped(s0, passes, p, pool, n - 1, k);
      AttemptsAreCapped(s0, passes, p, n - 1, k);
      if i :| 0 <= i < n - 1 && FateAt(s0, passes, p, i, k) == Advanced {
        AdvancedIsGone(s0, passes, p, pool, i, n - 1, k);
      }
    }
  }

  /** Every `process_one` call of the first `n` passes. */
  ghost function TotalStarts<K(!new)>(s0: Ledger<K>, passes: seq<Pass<K>>, p: Policy, n: nat): nat
    requires n <= |passes|
  {
    if n == 0 then 0 else TotalStarts(s0, passes, p, n - 1) + |Started(At(s0, passes, p, n - 1), passes[n - 1])|
  }

  ghost function StartsOver<K(!new)>(s0: Ledger<K>, passes: seq<Pass<K>>, p: Policy, n: nat, pool: seq<K>): nat
    requires n <= |passes|
  {
    if pool == [] then 0
    else StartsOver(s0, passes, p, n, pool[..|pool| - 1]) + Starts(s0, passes, p, n, pool[|pool| - 1])
  }

  function CountIn<K(==)>(pool: seq<K>, s: set<K>): nat {
    if pool == [] then 0
    else CountIn(pool[..|pool| - 1], s) + if pool[|pool| - 1] in s then 1 else 0
  }

  lemma SplitDistinct<K(!new)>(pool: seq<K>)
    requires pool != [] && Distinct(pool)
    ensures var most, last := pool[..|pool| - 1], pool[|pool| - 1];
            Distinct(most) && last !in most && forall k :: k in pool ==> k in most || k == last
  {
    var most := pool[..|pool| - 1];
    assert forall i :: 0 <= i < |most| ==> most[i] == pool[i];
    assert pool == most + [pool[|pool| - 1]];
  }

  lemma {:induction false} CountInIsSize<K(!new)>(pool: seq<K>, s: set<K>)
    requires Distinct(pool) && forall k :: k in s ==> k in pool
    ensures CountIn(pool, s) == |s|
  {
    if pool == [] {
      assert s == {};
    } else {
      var most, last := pool[..|pool| - 1], pool[|pool| - 1];
      SplitDistinct(pool);
      hide Distinct;
      CountInIsSize(most, s - {last});
      CountInSame(most, s, s - {last});
      assert last in s ==> s == (s - {last}) + {last};
      assert last !in s ==> s == s - {last};
    }
  }

  lemma {:induction false} CountInSame<K(!new)>(pool: seq<K>, a: set<K>, b: set<K>)
    requires forall k :: k in pool ==> (k in a <==> k in b)
    ensures CountIn(pool, a) == CountIn(pool, b)
  {
    if pool != [] {
      assert forall k :: k in pool[..|pool| - 1] ==> k in pool;
      CountInSame(pool[..|pool| - 1], a, b);
    }
  }

  lemma {:induction false} SizeOfDistinct<K(!new)>(s: seq<K>)
    requires Distinct(s)
    ensures |set k | k in s| == |s|
  {
    if s != [] {
      var most, last := s[..|s| - 1], s[|s| - 1];
      SizeOfDistinct(most);
      assert (set k | k in s) == (set k | k in most) + {last};
    }
  }

  lemma {:induction false} StartsOverStep<K(!new)>(s0: Ledger<K>, passes: seq<Pass<K>>, p: Policy, n: nat, pool: seq<K>)
    requires ValidRun(s0, passes, p) && n < |passes|
    ensures StartsOver(s0, passes, p, n + 1, pool) ==
            StartsOver(s0, passes, p, n, pool) + CountIn(pool, set k | k in Started(At(s0, passes, p, n), passes[n]))
  {
    if pool != [] {
      StartsOverStep(s0, passes, p, n, pool[..|pool| - 1]);
      StartedOnlyIfEligible(At(s0, passes, p, n), passes[n], pool[|pool| - 1]);
    }
  }

  lemma {:induction false} TotalIsSum<K(!new)>(s0: Ledger<K>, passes: seq<Pass<K>>, p: Policy, n: nat, pool: seq<K>)
    requires ValidRun(s0, passes, p) && Shrinks(passes, pool) && n <= |passes|
    ensures TotalStarts(s0, passes, p, n) == StartsOver(s0, passes, p, n, pool)
  {
    hide Started, AfterPass, FateOf, StartsOver, CountIn;
    if n == 0 {
      NoStartsYet(s0, passes, p, pool);
    } else {
      TotalIsSum(s0, passes, p, n - 1, pool);
      var s, pass := At(s0, passes, p, n - 1), passes[n - 1];
      StartedIs(s, pass);
      SizeOfDistinct(Started(s, pass));
      CountInIsSize(pool, set k | k in Started(s, pass));
      StartsOverStep(s0, passes, p, n - 1, pool);
    }
  }

  lemma {:induction false} NoStartsYet<K(!new)>(s0: Ledger<K>, passes: seq<Pass<K>>, p: Policy, pool: seq<K>)
    ensures StartsOver(s0, passes, p, 0, pool) == 0
  {
    if pool != [] { NoStartsYet(s0, passes, p, pool[..|pool| - 1]); }
  }

  lemma {:induction false} SumIsCapped<K(!new)>(s0: Ledger<K>, passes: seq<Pass<K>>, p: Policy, pool: seq<K>, part: seq<K>)
    requires ValidRun(s0, passes, p) && Shrinks(passes, pool)
    ensures StartsOver(s0, passes, p, |passes|, part) <= p.maxAttempts * |part|
  {
    if part != [] {
      SumIsCapped(s0, passes, p, pool, part[..|part| - 1]);
      StartsAreCapped(s0, passes, p, pool, |passes|, part[|part| - 1]);
      assert p.maxAttempts * |part| == p.maxAttempts * (|part| - 1) + p.maxAttempts;
    }
  }

  /** However many passes are made over a pool that only shrinks, `process_one` is called at most
      `maxAttempts` times per item of the pool. */
  lemma WorkIsBounded<K(!new)>(s0: Ledger<K>, passes: seq<Pass<K>>, p: Policy, pool: seq<K>)
    requires ValidRun(s0, passes, p) && Shrinks(passes, pool)
    ensures TotalStarts(s0, passes, p, |passes|) <= p.maxAttempts * |pool|
  {
    TotalIsSum(s0, passes, p, |passes|, pool);
    SumIsCapped(s0, passes, p, pool, pool);
  }
}
