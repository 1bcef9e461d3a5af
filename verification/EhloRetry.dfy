/** Resending one EHLO inside a bounded budget (`kernel/ehlo_retry.py`), over a clock that only the
    send and the sleep advance. */
module EhloRetry {
  import opened Options

  // ----- which failures are resent -------------------------------------------------------------

  /** `Transport` is a timeout, a refused, reset or aborted connection, or a remote disconnect. A
      `UrlError` carries the failure behind it, if that was an exception. */
  datatype Failure = HttpError(code: int) | UrlError(reason: Option<Failure>) | Transport | OtherError

  predicate IsTransient(f: Failure) {
    match f
    case HttpError(code) => code in {502, 503, 504}
    case UrlError(reason) => reason.Some? && IsTransient(reason.value)
    case Transport => true
    case OtherError => false
  }

  /** The failure behind any number of URL errors. */
  function Cause(f: Failure): Failure {
    if f.UrlError? && f.reason.Some? then Cause(f.reason.value) else f
  }

  /** A failure is resent exactly when, behind all URL errors, it is a transport failure or one of the
      three gateway statuses. */
  lemma {:induction false} TransientExactly(f: Failure)
    ensures IsTransient(f) <==> Cause(f).Transport? || (Cause(f).HttpError? && Cause(f).code in {502, 503, 504})
  {
    if f.UrlError? && f.reason.Some? { TransientExactly(f.reason.value); }
  }

  // ----- the loop ------------------------------------------------------------------------------

  /** The tunables, within the bounds the settings class enforces (`kernel/ehlo_settings.py`). */
  datatype Settings = Settings(attemptTimeout: real, maxAttempts: nat, budget: real, base: real, cap: real)

  predicate Tuned(s: Settings) {
    && 5.0 <= s.attemptTimeout <= 120.0 && 1 <= s.maxAttempts <= 20 && 30.0 <= s.budget <= 600.0
    && 0.1 <= s.base <= 10.0 && 1.0 <= s.cap <= 120.0
  }

  const MIN_ATTEMPT_TIMEOUT := 1.0

  function Min(a: real, b: real): real { if a < b then a else b }

  function Max(a: real, b: real): real { if a < b then b else a }

  function Pow2(n: nat): (r: real)
    ensures r >= 1.0
  {
    if n == 0 then 1.0 else 2.0 * Pow2(n - 1)
  }

  /** The jitter's ceiling after failed attempt `n`. */
  function Ceiling(s: Settings, n: nat): real
    requires n >= 1
  {
    Min(s.cap, s.base * Pow2(n - 1))
  }

  function Times(a: real, b: real): real { a * b }

  /** `backoff_delay`. */
  function BackoffDelay(rand: nat -> real, s: Settings, n: nat): real
    requires n >= 1
  {
    Times(rand(n), Ceiling(s, n))
  }

  function TimeoutFor(s: Settings, elapsed: real): real {
    Min(s.attemptTimeout, Max(s.budget - elapsed, MIN_ATTEMPT_TIMEOUT))
  }

  /** How one send went: how long it took, and the failure unless master replied. */
  datatype Sent = Sent(took: real, failure: Option<Failure>)

  /** The sender honours its timeout, whichever attempt it is. */
  ghost predicate HonoursTimeouts(send: (nat, real) -> Sent) {
    forall n: nat, timeout: real :: timeout > 0.0 ==> 0.0 <= send(n, timeout).took <= timeout
  }

  ghost predicate IsJitter(rand: nat -> real) {
    forall n: nat :: 0.0 <= rand(n) < 1.0
  }

  /** One attempt as it happened, times counted from the start of the call. */
  datatype Attempt = Attempt(at: real, timeout: real, sent: Sent, delay: real)

  datatype Outcome = Replied | Final(failure: Failure) | Exhausted(attempts: nat, elapsed: real, cause: Failure)

  function EndOf(a: Attempt): real { a.at + a.sent.took }

  /** The ceiling of the first wait is the base, and each later one twice the one before, both up to the
      cap; a wait is the drawn share of its ceiling. */
  lemma CeilingGrows(s: Settings, rand: nat -> real, n: nat)
    requires Tuned(s) && n >= 1
    ensures Ceiling(s, 1) == if s.base < s.cap then s.base else s.cap
    ensures Ceiling(s, n + 1) == if 2.0 * Ceiling(s, n) < s.cap then 2.0 * Ceiling(s, n) else s.cap
    ensures BackoffDelay(rand, s, n) == rand(n) * Ceiling(s, n)
  {
    Doubled(s.base, Pow2(n - 1));
    assert Pow2(0) == 1.0 && Pow2(n) == 2.0 * Pow2(n - 1);
    hide Pow2;
    Positive(s.base, Pow2(n - 1));
  }

  lemma Doubled(a: real, b: real)
    ensures a * (2.0 * b) == 2.0 * (a * b)
  {
  }

  lemma BackoffInRange(s: Settings, rand: nat -> real, n: nat)
    requires Tuned(s) && IsJitter(rand) && n >= 1
    ensures 0.0 <= BackoffDelay(rand, s, n) < Ceiling(s, n) <= s.cap
  {
    CeilingInRange(s, n);
    hide Ceiling;
    hide Times;
    Scaled(rand(n), Ceiling(s, n));
  }

  lemma CeilingInRange(s: Settings, n: nat)
    requires Tuned(s) && n >= 1
    ensures 0.0 < Ceiling(s, n) <= s.cap
  {
    hide Pow2;
    Positive(s.base, Pow2(n - 1));
  }

  lemma Positive(a: real, b: real)
    requires a > 0.0 && b > 0.0
    ensures a * b > 0.0
  {
  }

  lemma Scaled(u: real, c: real)
    requires 0.0 <= u < 1.0 && c > 0.0
    ensures 0.0 <= Times(u, c) < c
  {
    assert (1.0 - u) * c > 0.0 by { Positive(1.0 - u, c); }
    assert u * c == c - (1.0 - u) * c;
    if u > 0.0 { Positive(u, c); }
  }

  /** The attempts follow each other: the first at once, each later one after the send before it and
      its backoff, inside the budget, and only because the one before failed transiently. */
  ghost predicate Sequence(s: Settings, log: seq<Attempt>) {
    && |log| <= s.maxAttempts
    && (log != [] ==> log[0].at == 0.0)
    && (forall i :: 0 <= i < |log| ==>
          0.0 <= log[i].at < s.budget && log[i].timeout == TimeoutFor(s, log[i].at)
          && 0.0 <= log[i].sent.took <= log[i].timeout)
    && (forall i :: 0 <= i < |log| - 1 ==>
          log[i].sent.failure.Some? && IsTransient(log[i].sent.failure.value)
          && 0.0 <= log[i].delay < Ceiling(s, i + 1) && log[i + 1].at == EndOf(log[i]) + log[i].delay)
  }

  /** Another attempt may start at `now`. */
  ghost predicate Ready(s: Settings, log: seq<Attempt>, now: real) {
    && Sequence(s, log) && |log| < s.maxAttempts && 0.0 <= now < s.budget
    && (log == [] ==> now == 0.0)
    && (log != [] ==>
          var last := log[|log| - 1];
          && last.sent.failure.Some? && IsTransient(last.sent.failure.value)
          && 0.0 <= last.delay < Ceiling(s, |log|) && now == EndOf(last) + last.delay)
  }

  /** Every attempt of the log is what the sender did with it. */
  ghost predicate SentBy(send: (nat, real) -> Sent, log: seq<Attempt>) {
    forall i :: 0 <= i < |log| ==> log[i].sent == send(i + 1, log[i].timeout)
  }

  lemma OneMoreAttempt(send: (nat, real) -> Sent, s: Settings, log: seq<Attempt>, now: real, a: Attempt)
    requires Ready(s, log, now) && SentBy(send, log) && HonoursTimeouts(send) && Tuned(s)
    requires a.at == now && a.timeout == TimeoutFor(s, now) && a.sent == send(|log| + 1, a.timeout)
    ensures Sequence(s, log + [a]) && SentBy(send, log + [a])
    ensures |log| + 1 < s.maxAttempts && EndOf(a) + a.delay < s.budget && 0.0 <= a.delay < Ceiling(s, |log| + 1)
              && a.sent.failure.Some? && IsTransient(a.sent.failure.value) ==>
            Ready(s, log + [a], EndOf(a) + a.delay)
  {
    PositiveTimeout(s, now);
    hide Ceiling, TimeoutFor, IsTransient;
    var after := log + [a];
    forall i | 0 <= i < |after| - 1
      ensures after[i].sent.failure.Some? && IsTransient(after[i].sent.failure.value)
      ensures 0.0 <= after[i].delay < Ceiling(s, i + 1) && after[i + 1].at == EndOf(after[i]) + after[i].delay
    {
      assert after[i] == log[i];
      if i + 1 < |log| { assert after[i + 1] == log[i + 1]; }
    }
  }

  /** The rest of a call from attempt `attempt + 1`, started at `now`: how it ends and what it sent. */
  function Rest(send: (nat, real) -> Sent, rand: nat -> real, s: Settings, attempt: nat, now: real): (Outcome, seq<Attempt>)
    requires attempt < s.maxAttempts
    decreases s.maxAttempts - attempt
  {
    var n, timeout := attempt + 1, TimeoutFor(s, now);
    var sent := send(n, timeout);
    if sent.failure.None? then (Replied, [Attempt(now, timeout, sent, 0.0)])
    else if !IsTransient(sent.failure.value) then (Final(sent.failure.value), [Attempt(now, timeout, sent, 0.0)])
    else
      var elapsed, delay := now + sent.took, BackoffDelay(rand, s, n);
      if n >= s.maxAttempts || elapsed + delay >= s.budget
      then (Exhausted(n, elapsed, sent.failure.value), [Attempt(now, timeout, sent, delay)])
      else
        var (outcome, later) := Rest(send, rand, s, n, elapsed + delay);
        (outcome, [Attempt(now, timeout, sent, delay)] + later)
  }

  /** One turn of the loop, with the log so far. */
  lemma RestUnfolds(send: (nat, real) -> Sent, rand: nat -> real, s: Settings, attempt: nat, now: real, log: seq<Attempt>)
    requires attempt < s.maxAttempts
    ensures var n, timeout := attempt + 1, TimeoutFor(s, now);
            var sent, rest := send(n, timeout), Rest(send, rand, s, attempt, now);
            && (sent.failure.None? ==> rest == (Replied, [Attempt(now, timeout, sent, 0.0)]))
            && (sent.failure.Some? && !IsTransient(sent.failure.value) ==>
                  rest == (Final(sent.failure.value), [Attempt(now, timeout, sent, 0.0)]))
            && (sent.failure.Some? && IsTransient(sent.failure.value) ==>
                  var elapsed, delay := now + sent.took, BackoffDelay(rand, s, n);
                  var last := Attempt(now, timeout, sent, delay);
                  if n >= s.maxAttempts || elapsed + delay >= s.budget
                  then rest == (Exhausted(n, elapsed, sent.failure.value), [last])
                  else
                    var later := Rest(send, rand, s, n, elapsed + delay);
                    rest.0 == later.0 && log + rest.1 == (log + [last]) + later.1)
  {
    hide IsTransient, BackoffDelay, TimeoutFor;
  }

  /** `send_with_retry`. */
  method SendWithRetry(send: (nat, real) -> Sent, rand: nat -> real, s: Settings) returns (r: Outcome, log: seq<Attempt>)
    requires Tuned(s) && HonoursTimeouts(send) && IsJitter(rand)
    ensures (r, log) == Rest(send, rand, s, 0, 0.0)
    ensures log != [] && Sequence(s, log)
    ensures SentBy(send, log)
    ensures forall i :: 0 <= i < |log| - 1 ==> log[i].delay == BackoffDelay(rand, s, i + 1)
    ensures var last := log[|log| - 1];
            && (r.Replied? <==> last.sent.failure.None?)
            && (r.Final? <==> last.sent.failure.Some? && !IsTransient(last.sent.failure.value))
            && (r.Final? ==> r.failure == last.sent.failure.value)
            && (r.Exhausted? ==> r == Exhausted(|log|, EndOf(last), last.sent.failure.value))
            && (r.Exhausted? ==> |log| == s.maxAttempts || EndOf(last) + BackoffDelay(rand, s, |log|) >= s.budget)
  {
    log := [];
    var now := 0.0;
    var attempt := 0;
    hide Sequence, Ceiling, IsTransient, Min, Max, Rest, BackoffDelay, TimeoutFor, Ready, SentBy, HonoursTimeouts, Tuned, IsJitter;
    EmptySequence(send, s);
    ghost var (ending, sends) := Rest(send, rand, s, 0, 0.0);
    while true
      invariant attempt == |log| < s.maxAttempts && Ready(s, log, now)
      invariant Rest(send, rand, s, attempt, now).0 == ending && log + Rest(send, rand, s, attempt, now).1 == sends
      invariant SentBy(send, log)
      invariant forall i :: 0 <= i < |log| ==> log[i].delay == BackoffDelay(rand, s, i + 1)
      decreases s.maxAttempts - attempt
    {
      RestUnfolds(send, rand, s, attempt, now, log);
      attempt := attempt + 1;
      var timeout := TimeoutFor(s, now);
      var sent := send(attempt, timeout);
      ghost var before := log;
      if sent.failure.None? {
        log := log + [Attempt(now, timeout, sent, 0.0)];
        OneMoreAttempt(send, s, before, now, log[|before|]);
        return Replied, log;
      }
      if !IsTransient(sent.failure.value) {
        log := log + [Attempt(now, timeout, sent, 0.0)];
        OneMoreAttempt(send, s, before, now, log[|before|]);
        return Final(sent.failure.value), log;
      }
      var elapsed := now + sent.took;
      var delay := BackoffDelay(rand, s, attempt);
      BackoffInRange(s, rand, attempt);
      log := log + [Attempt(now, timeout, sent, delay)];
      OneMoreAttempt(send, s, before, now, log[|before|]);
      if attempt >= s.maxAttempts || elapsed + delay >= s.budget {
        return Exhausted(attempt, elapsed, sent.failure.value), log;
      }
      now := elapsed + delay;
    }
  }

  lemma EmptySequence(send: (nat, real) -> Sent, s: Settings)
    requires Tuned(s)
    ensures Ready(s, [], 0.0) && SentBy(send, [])
  {
  }

  lemma PositiveTimeout(s: Settings, elapsed: real)
    requires Tuned(s)
    ensures TimeoutFor(s, elapsed) > 0.0
  {
  }

  /** An attempt is given its full timeout while the budget has that much left, then what is left, and
      never less than the minimum. */
  lemma TimeoutsExactly(s: Settings, log: seq<Attempt>, i: nat)
    requires Tuned(s) && Sequence(s, log) && i < |log|
    ensures var left := s.budget - log[i].at;
            && (log[i].timeout == s.attemptTimeout <==> left >= s.attemptTimeout)
            && (log[i].timeout == left <==> 1.0 <= left <= s.attemptTimeout)
            && (log[i].timeout == 1.0 <==> left <= 1.0)
  {
    assert log[i].timeout == TimeoutFor(s, log[i].at);
  }

  /** An attempt may run past the budget exactly when it starts with less than the minimum timeout
      left, and then it ends less than that minimum after the budget. */
  lemma MayOverrunExactly(s: Settings, log: seq<Attempt>, i: nat)
    requires Tuned(s) && Sequence(s, log) && i < |log|
    ensures log[i].at + log[i].timeout > s.budget <==> s.budget - log[i].at < MIN_ATTEMPT_TIMEOUT
    ensures EndOf(log[i]) < s.budget + MIN_ATTEMPT_TIMEOUT
    ensures EndOf(log[i]) > s.budget ==> i == |log| - 1
  {
    assert log[i].timeout == TimeoutFor(s, log[i].at);
    if i < |log| - 1 { assert log[i + 1].at == EndOf(log[i]) + log[i].delay; }
  }

  /** A sender that takes all the time it is given, first failing and then replying. */
  function SlowSender(): (nat, real) -> Sent {
    (n, timeout) => Sent(timeout, if n == 1 then Some(Transport) else None)
  }

  /** Such an overrun happens: a call that ends in a reply after its budget. */
  lemma BudgetCanBeOverrun()
    ensures var s := Settings(29.5, 2, 30.0, 1.0, 1.0);
            var (outcome, log) := Rest(SlowSender(), _ => 0.0, s, 0, 0.0);
            && Tuned(s) && HonoursTimeouts(SlowSender()) && IsJitter(_ => 0.0)
            && outcome == Replied && |log| == 2 && EndOf(log[1]) == 30.5
  {
    var s := Settings(29.5, 2, 30.0, 1.0, 1.0);
    var send, rand: nat -> real := SlowSender(), _ => 0.0;
    assert TimeoutFor(s, 0.0) == 29.5 && TimeoutFor(s, 29.5) == 1.0;
    assert Pow2(0) == 1.0;
    assert BackoffDelay(rand, s, 1) == 0.0;
    assert Rest(send, rand, s, 1, 29.5) == (Replied, [Attempt(29.5, 1.0, Sent(1.0, None), 0.0)]);
    assert Rest(send, rand, s, 0, 0.0).1[1] == Attempt(29.5, 1.0, Sent(1.0, None), 0.0);
  }

  /** Attempts never overlap, so at most `maxAttempts` are under way one after another. */
  lemma {:induction false} AttemptsInOrder(s: Settings, log: seq<Attempt>, i: nat, j: nat)
    requires Sequence(s, log) && i < j < |log|
    ensures EndOf(log[i]) <= log[j].at
  {
    assert log[j].at == EndOf(log[j - 1]) + log[j - 1].delay;
    if i < j - 1 { AttemptsInOrder(s, log, i, j - 1); }
  }
}
