/** What every run of dispatcher fires and dashboard answers keeps: one placement per run and only
    under its conditions, a fixed effective answer, and the discipline of holds and notices. */
module DispatchSafety {
  import opened Options
  import opened CreatedAt
  import opened Dispatch

  /** The dashboard also records answers, with no update id, for a run whose active hold no answer was
      marked on (`surfaces/dashboard/hold_answer_route.py`). */
  datatype Event = FireAt(fire: Fire) | DashboardAnswer(run: RunId, answer: Answer, at: nat)

  function TimeOf(e: Event): nat { if e.FireAt? then e.fire.now else e.at }

  function Next(l: Listing, s: State, e: Event): State {
    match e
    case FireAt(f) => Fired(l, s, f).state
    case DashboardAnswer(run, answer, at) =>
      if AwaitsAnswer(s.holds, run) then s.(answers := Recorded(s.answers, run, answer, Dashboard, at, 0)) else s
  }

  predicate AwaitsAnswer(holds: seq<Hold>, run: RunId) {
    exists i :: 0 <= i < |holds| && ActiveFor(holds[i], run) && holds[i].answered.None?
  }

  function NoticeOf(l: Listing, s: State, e: Event): Option<Notice> {
    if e.FireAt? then Fired(l, s, e.fire).notice else None
  }

  /** The state before event `n` of a history that starts with an empty graph. */
  function At(l: Listing, events: seq<Event>, n: nat): State
    requires n <= |events|
  {
    if n == 0 then State([], [], map[]) else Next(l, At(l, events, n - 1), events[n - 1])
  }

  ghost predicate InTimeOrder(events: seq<Event>) {
    forall i, j :: 0 <= i < j < |events| ==> TimeOf(events[i]) <= TimeOf(events[j])
  }

  // ----- the invariant -------------------------------------------------------------------------

  /** A hold's key counts the run's earlier holds, and a run never has two active holds. */
  ghost predicate HoldsKept(holds: seq<Hold>) {
    && (forall i :: 0 <= i < |holds| ==> holds[i].ordinal == CountHolds(holds[..i], holds[i].run))
    && (forall i, j :: 0 <= i < j < |holds| && holds[i].run == holds[j].run ==> holds[i].released.Some?)
  }

  /** Answers are keyed 1, 2, ... per run and source, in time order, once per Telegram update. */
  ghost predicate AnswersKept(answers: seq<AnswerFact>, now: nat) {
    && (forall i :: 0 <= i < |answers| ==>
          answers[i].ordinal == 1 + CountAnswers(answers[..i], answers[i].run, answers[i].source))
    && (forall i, j :: 0 <= i < j < |answers| ==> answers[i].at <= answers[j].at)
    && (forall i :: 0 <= i < |answers| ==> answers[i].at <= now)
    && (forall i, j :: 0 <= i < j < |answers| ==> answers[i].updateId == 0 || answers[i].updateId != answers[j].updateId)
  }

  ghost predicate Kept(s: State, now: nat) { HoldsKept(s.holds) && AnswersKept(s.answers, now) }

  // ----- answers -------------------------------------------------------------------------------

  /** `a` is taken over `b`, whichever was written first. */
  predicate Sooner(l: Listing, a: AnswerFact, b: AnswerFact) {
    a.at < b.at || (l.ByKey? && a.at == b.at && KeyBefore(a, b))
  }

  /** A new fact changes the earliest one exactly when it is the run's first, strictly earlier or, when
      facts are listed by key, of the same second under a smaller key. */
  lemma NewFactTakesOver(l: Listing, answers: seq<AnswerFact>, fact: AnswerFact, run: RunId)
    ensures Earliest(l, answers + [fact], run) != Earliest(l, answers, run) <==>
            fact.run == run && (Earliest(l, answers, run).None? || Sooner(l, fact, Earliest(l, answers, run).value))
  {
    assert (answers + [fact])[..|answers|] == answers;
    if Earliest(l, answers, run).Some? { LessIrreflexive(KeyTail(fact)); }
  }

  lemma RecordedKept(answers: seq<AnswerFact>, run: RunId, answer: Answer, source: Source, at: nat, updateId: int)
    requires AnswersKept(answers, at)
    ensures var r := Recorded(answers, run, answer, source, at, updateId);
            && AnswersKept(r, at) && answers <= r
  {
    var r := Recorded(answers, run, answer, source, at, updateId);
    if r != answers {
      forall i | 0 <= i < |answers| ensures r[..i] == answers[..i] {}
      assert r[..|answers|] == answers;
    }
  }

  lemma {:induction false} PolledKept(answers: seq<AnswerFact>, callbacks: seq<Callback>, now: nat)
    requires AnswersKept(answers, now)
    ensures var r := PolledAll(answers, callbacks, now);
            && AnswersKept(r, now) && answers <= r
  {
    if callbacks != [] {
      PolledKept(answers, callbacks[..|callbacks| - 1], now);
      var c := callbacks[|callbacks| - 1];
      RecordedKept(PolledAll(answers, callbacks[..|callbacks| - 1], now), c.run, c.answer, Telegram, now, c.updateId);
    }
  }

  /** One event keeps the answers in order and only adds to them. */
  lemma NextKeepsAnswers(l: Listing, s: State, e: Event, now: nat)
    requires AnswersKept(s.answers, now) && now <= TimeOf(e)
    ensures AnswersKept(Next(l, s, e).answers, TimeOf(e))
    ensures s.answers <= Next(l, s, e).answers
  {
    assert AnswersKept(s.answers, TimeOf(e));
    match e
    case DashboardAnswer(run, answer, at) => RecordedKept(s.answers, run, answer, Dashboard, at, 0);
    case FireAt(f) =>
      if f.polled.Some? { PolledKept(s.answers, f.polled.value, f.now); }
      FiredAnswers(l, s, f);
  }

  lemma FiredAnswers(l: Listing, s: State, f: Fire)
    ensures Fired(l, s, f).state.answers == s.answers
            || (f.polled.Some? && Fired(l, s, f).state.answers == PolledAll(s.answers, f.polled.value, f.now))
  {
    hide IsActionTime, Effective, PolledAll, ActiveHold, CountHolds, Marked;
  }

  // ----- holds and placements, one event at a time ---------------------------------------------

  lemma {:induction false} CountIgnoresProgress(a: seq<Hold>, b: seq<Hold>, run: RunId)
    requires |a| == |b| && forall i :: 0 <= i < |a| ==> a[i].run == b[i].run
    ensures CountHolds(a, run) == CountHolds(b, run)
  {
    if a != [] { CountIgnoresProgress(a[..|a| - 1], b[..|b| - 1], run); }
  }

  /** `b` is `a` with more progress recorded on its holds. */
  ghost predicate Progressed(a: seq<Hold>, b: seq<Hold>) {
    && |a| <= |b|
    && forall i :: 0 <= i < |a| ==>
         && b[i].run == a[i].run && b[i].ordinal == a[i].ordinal
         && b[i].heldAt == a[i].heldAt && b[i].failures == a[i].failures
         && (a[i].released.Some? ==> b[i].released == a[i].released)
         && (a[i].notified.Some? ==> b[i].notified == a[i].notified)
         && (a[i].answered.Some? ==> b[i].answered == a[i].answered)
  }

  lemma ProgressKeeps(a: seq<Hold>, b: seq<Hold>)
    requires HoldsKept(a) && Progressed(a, b) && |a| == |b|
    ensures HoldsKept(b)
  {
    forall i | 0 <= i < |b| ensures b[i].ordinal == CountHolds(b[..i], b[i].run) {
      CountIgnoresProgress(a[..i], b[..i], b[i].run);
    }
  }

  lemma NewHoldKeeps(a: seq<Hold>, h: Hold)
    requires HoldsKept(a) && ActiveHold(a, h.run).None? && h.ordinal == CountHolds(a, h.run)
    ensures HoldsKept(a + [h])
  {
    var b := a + [h];
    hide ActiveHold, CountHolds;
    forall i | 0 <= i < |b| ensures b[i].ordinal == CountHolds(b[..i], b[i].run) {
      assert b[..i] == if i < |a| then a[..i] else a;
      if i < |a| { assert a[i] == b[i]; }
    }
    forall i, j | 0 <= i < j < |b| && b[i].run == b[j].run ensures b[i].released.Some? {
      assert a[i] == b[i];
      if j < |a| { assert a[j] == b[j]; } else { assert !ActiveFor(a[i], h.run); }
    }
  }

  /** What a fire needs to place its run: an open day, the action window, a nonempty universe, and
      `run_now` or a fleet that may run and no answer. */
  predicate MayPlace(f: Fire, answer: Option<Answer>) {
    && f.calendar == Session && IsActionTime(f.now) && f.universe != []
    && (answer == Some(RunNow) || (answer.None? && f.readiness.state in {Ready, Degraded}))
  }

  /** The failures a run placed by `f` carries: those of a degraded fleet nobody overrode. */
  function PostureOf(f: Fire, answer: Option<Answer>): Option<seq<string>> {
    if answer.None? && f.readiness.state == Degraded then Some(f.readiness.failures) else None
  }

  /** A fire places a run exactly when it may and the run is not there yet, with the fire's universe and
      posture; a placed run keeps its facts. */
  ghost predicate PlacesRight(l: Listing, s: State, f: Fire, t: State) {
    var run, answer := Scheduled(f.day), Effective(l, t.answers, Scheduled(f.day));
    && (forall x :: x in s.runs ==>
          && x in t.runs && t.runs[x].tickers == s.runs[x].tickers && t.runs[x].degradedBy == s.runs[x].degradedBy
          && (s.runs[x].degradedNotified.Some? ==> t.runs[x] == s.runs[x]))
    && (forall x :: x in t.runs && x !in s.runs ==> x == run)
    && (run in t.runs <==> run in s.runs || MayPlace(f, answer))
    && (run in t.runs && run !in s.runs ==>
          t.runs[run].tickers == f.universe && t.runs[run].degradedBy == PostureOf(f, answer))
  }

  /** A hold is released only for a fleet that may run and no answer, and then its run is placed
      exactly when the universe is not empty. */
  ghost predicate ReleasesRight(l: Listing, s: State, f: Fire, t: State) {
    var run, answer := Scheduled(f.day), Effective(l, t.answers, Scheduled(f.day));
    && Progressed(s.holds, t.holds)
    && (forall i :: 0 <= i < |s.holds| && s.holds[i].released.None? && t.holds[i].released.Some? ==>
          && s.holds[i].run == run && run !in s.runs && f.calendar == Session && IsActionTime(f.now)
          && answer.None? && f.readiness.state in {Ready, Degraded}
          && (run in t.runs <==> f.universe != []))
  }

  /** A hold is created only for a fleet that may not run, none of whose holds is active and whose
      run is not placed. */
  ghost predicate HoldsRight(l: Listing, s: State, f: Fire, t: State) {
    && |s.holds| <= |t.holds| <= |s.holds| + 1
    && (|t.holds| == |s.holds| + 1 ==>
          (var h, run := t.holds[|s.holds|], Scheduled(f.day);
           && h.run == run && run !in t.runs && ActiveHold(s.holds, run).None?
           && h.ordinal == CountHolds(s.holds, run) && h.released.None?
           && Effective(l, t.answers, run).None? && f.readiness.state in {Failing, Unknown}))
  }

  lemma MarkedProgress(holds: seq<Hold>, hold: Option<nat>, answer: Option<Answer>)
    requires hold.Some? ==> hold.value < |holds|
    ensures var r := Marked(holds, hold, answer);
            && Progressed(holds, r)
            && (forall i :: 0 <= i < |holds| ==> r[i].released == holds[i].released && r[i].notified == holds[i].notified)
  {
  }

  lemma {:induction false} ActiveIgnoresMarks(a: seq<Hold>, b: seq<Hold>, run: RunId)
    requires |a| == |b| && forall i :: 0 <= i < |a| ==> a[i].run == b[i].run && a[i].released == b[i].released
    ensures ActiveHold(a, run) == ActiveHold(b, run)
  {
    if a != [] { ActiveIgnoresMarks(a[..|a| - 1], b[..|b| - 1], run); }
  }

  lemma AnsweredFacts(l: Listing, s: State, f: Fire)
    ensures var t, run := Answered(l, s, f), Scheduled(f.day);
            && t.runs == s.runs && |t.holds| == |s.holds| && Progressed(s.holds, t.holds)
            && (forall i :: 0 <= i < |s.holds| ==>
                  t.holds[i].released == s.holds[i].released && t.holds[i].notified == s.holds[i].notified)
            && ActiveHold(t.holds, run) == ActiveHold(s.holds, run)
            && CountHolds(t.holds, run) == CountHolds(s.holds, run)
  {
    var t, run := Answered(l, s, f), Scheduled(f.day);
    MarkedProgress(s.holds, ActiveHold(s.holds, run), Effective(l, t.answers, run));
    ActiveIgnoresMarks(s.holds, t.holds, run);
    CountIgnoresProgress(s.holds, t.holds, run);
  }

  /** Placement without an answer adds the run itself, exactly when the fleet may run and the universe is
      not empty. */
  lemma ScheduledPlaces(t: State, run: RunId, f: Fire)
    requires run !in t.runs
    ensures var r := ScheduledPlacement(t, run, f).state;
            && r.answers == t.answers
            && (forall x :: x in t.runs ==> x in r.runs && r.runs[x] == t.runs[x])
            && (forall x :: x in r.runs && x !in t.runs ==> x == run)
            && (run in r.runs <==> f.universe != [] && f.readiness.state in {Ready, Degraded})
            && (run in r.runs ==> r.runs[run].tickers == f.universe && r.runs[run].degradedBy == PostureOf(f, None))
  {
    hide ActiveHold, CountHolds;
  }

  lemma FirePlacesRight(l: Listing, s: State, f: Fire)
    ensures PlacesRight(l, s, f, Fired(l, s, f).state)
  {
    hide IsActionTime, Effective, Answered, ActiveHold, CountHolds, ScheduledPlacement, PlacedRun, Overridden;
    AnsweredFacts(l, s, f);
    if f.calendar == Session && Scheduled(f.day) !in s.runs && IsActionTime(f.now) {
      ActingFirePlaces(l, s, f);
    }
  }

  lemma ActingFirePlaces(l: Listing, s: State, f: Fire)
    requires f.calendar == Session && Scheduled(f.day) !in s.runs && IsActionTime(f.now)
    ensures PlacesRight(l, s, f, Fired(l, s, f).state)
  {
    hide IsActionTime, Effective, Answered, ActiveHold, CountHolds, ScheduledPlacement;
    AnsweredFacts(l, s, f);
    var t, run := Answered(l, s, f), Scheduled(f.day);
    ScheduledPlaces(t, run, f);
    var answer: Option<Answer> := Effective(l, t.answers, run);
    assert answer.None? || answer.value == RunNow || answer.value == SkipToday;
  }

  /** Placement without an answer releases at most the run's active hold, and only when the fleet may
      run; it then places the run exactly when the universe is not empty. */
  lemma ScheduledReleases(t: State, run: RunId, f: Fire)
    requires run !in t.runs
    ensures var r := ScheduledPlacement(t, run, f).state;
            && r.answers == t.answers && Progressed(t.holds, r.holds)
            && (forall i :: 0 <= i < |t.holds| && t.holds[i].released.None? && r.holds[i].released.Some? ==>
                  && t.holds[i].run == run && f.readiness.state in {Ready, Degraded}
                  && (run in r.runs <==> f.universe != []))
  {
    hide ActiveHold, CountHolds;
  }

  lemma FireReleasesRight(l: Listing, s: State, f: Fire)
    ensures ReleasesRight(l, s, f, Fired(l, s, f).state)
  {
    hide IsActionTime, Effective, PolledAll, Answered, ActiveHold, CountHolds, ScheduledPlacement;
    AnsweredFacts(l, s, f);
    var t, run := Answered(l, s, f), Scheduled(f.day);
    if run !in t.runs { ScheduledReleases(t, run, f); }
    var answer: Option<Answer> := Effective(l, t.answers, run);
    assert answer.None? || answer.value == RunNow || answer.value == SkipToday;
  }

  lemma FireHoldsRight(l: Listing, s: State, f: Fire)
    ensures HoldsRight(l, s, f, Fired(l, s, f).state)
  {
    hide IsActionTime, Effective, PolledAll, Answered, ActiveHold, CountHolds, Progressed;
    AnsweredFacts(l, s, f);
    var answer: Option<Answer> := Effective(l, Answered(l, s, f).answers, Scheduled(f.day));
    assert answer.None? || answer.value == RunNow || answer.value == SkipToday;
  }

  lemma FireRight(l: Listing, s: State, f: Fire)
    ensures PlacesRight(l, s, f, Fired(l, s, f).state)
    ensures ReleasesRight(l, s, f, Fired(l, s, f).state)
    ensures HoldsRight(l, s, f, Fired(l, s, f).state)
  {
    FirePlacesRight(l, s, f);
    FireReleasesRight(l, s, f);
    FireHoldsRight(l, s, f);
  }

  lemma FireKeepsHolds(l: Listing, s: State, f: Fire)
    requires HoldsKept(s.holds)
    ensures HoldsKept(Fired(l, s, f).state.holds)
  {
    FireRight(l, s, f);
    var t := Fired(l, s, f).state.holds;
    if |t| == |s.holds| {
      ProgressKeeps(s.holds, t);
    } else {
      var kept := t[..|s.holds|];
      ProgressKeeps(s.holds, kept);
      var h := t[|s.holds|];
      CountIgnoresProgress(s.holds, kept, h.run);
      forall i | 0 <= i < |kept| ensures !ActiveFor(kept[i], h.run) { assert !ActiveFor(s.holds[i], h.run); }
      NewHoldKeeps(kept, h);
      assert t == kept + [h];
    }
  }

  // ----- whole histories -----------------------------------------------------------------------

  /** What one event of either kind does, in the terms the histories below use. */
  ghost predicate EventRight(l: Listing, s: State, e: Event, t: State) {
    match e
    case DashboardAnswer(_, _, _) => t.holds == s.holds && t.runs == s.runs
    case FireAt(f) => PlacesRight(l, s, f, t) && ReleasesRight(l, s, f, t) && HoldsRight(l, s, f, t)
  }

  lemma NextRight(l: Listing, s: State, e: Event)
    ensures EventRight(l, s, e, Next(l, s, e))
    ensures HoldsKept(s.holds) ==> HoldsKept(Next(l, s, e).holds)
  {
    if e.FireAt? {
      FireRight(l, s, e.fire);
      if HoldsKept(s.holds) { FireKeepsHolds(l, s, e.fire); }
    }
  }

  lemma NothingYet()
    ensures Kept(State([], [], map[]), 0)
  {
  }

  /** Every reachable state keeps the invariant. */
  lemma {:induction false} Reachable(l: Listing, events: seq<Event>, n: nat)
    requires InTimeOrder(events) && n <= |events|
    ensures Kept(At(l, events, n), if n == 0 then 0 else TimeOf(events[n - 1]))
  {
    hide Next, HoldsKept, AnswersKept;
    if n > 0 {
      Reachable(l, events, n - 1);
      var s, e := At(l, events, n - 1), events[n - 1];
      NextKeepsAnswers(l, s, e, if n == 1 then 0 else TimeOf(events[n - 2]));
      NextRight(l, s, e);
    } else {
      NothingYet();
    }
  }

  /** No two holds, and no two answers, of a reachable state share a key. */
  lemma KeysAreFresh(l: Listing, events: seq<Event>, n: nat, i: nat, j: nat)
    requires InTimeOrder(events) && n <= |events|
    ensures var s := At(l, events, n);
            && (i < j < |s.holds| && s.holds[i].run == s.holds[j].run ==> s.holds[i].ordinal != s.holds[j].ordinal)
            && (i < j < |s.answers| && s.answers[i].run == s.answers[j].run && s.answers[i].source == s.answers[j].source
                ==> s.answers[i].ordinal != s.answers[j].ordinal)
  {
    Reachable(l, events, n);
    var s := At(l, events, n);
    if i < j < |s.holds| { CountGrows(s.holds, i, j, s.holds[i].run); }
    if i < j < |s.answers| { AnswerCountGrows(s.answers, i, j, s.answers[i].run, s.answers[i].source); }
  }

  lemma {:induction false} CountGrows(holds: seq<Hold>, i: nat, j: nat, run: RunId)
    requires i < j <= |holds| && holds[i].run == run
    ensures CountHolds(holds[..i], run) < CountHolds(holds[..j], run)
  {
    assert holds[..j][..j - 1] == holds[..j - 1];
    if i < j - 1 { CountGrows(holds, i, j - 1, run); }
  }

  lemma {:induction false} AnswerCountGrows(answers: seq<AnswerFact>, i: nat, j: nat, run: RunId, source: Source)
    requires i < j <= |answers| && answers[i].run == run && answers[i].source == source
    ensures CountAnswers(answers[..i], run, source) < CountAnswers(answers[..j], run, source)
  {
    assert answers[..j][..j - 1] == answers[..j - 1];
    if i < j - 1 { AnswerCountGrows(answers, i, j - 1, run, source); }
  }

  /** At most one hold of a run is active. */
  lemma OneActiveHold(l: Listing, events: seq<Event>, n: nat, run: RunId, i: nat, j: nat)
    requires InTimeOrder(events) && n <= |events|
    requires i < |At(l, events, n).holds| && j < |At(l, events, n).holds|
    requires ActiveFor(At(l, events, n).holds[i], run) && ActiveFor(At(l, events, n).holds[j], run)
    ensures i == j
  {
    Reachable(l, events, n);
  }

  /** A placed run stays placed, with the tickers and posture it was placed with; no later event
      places it again, holds it, or releases a hold of it. */
  lemma {:induction false} PlacedForGood(l: Listing, events: seq<Event>, m: nat, n: nat, run: RunId)
    requires m <= n <= |events| && run in At(l, events, m).runs
    ensures var s, t := At(l, events, m), At(l, events, n);
            && run in t.runs && t.runs[run].tickers == s.runs[run].tickers && t.runs[run].degradedBy == s.runs[run].degradedBy
            && |s.holds| <= |t.holds|
            && (forall i :: 0 <= i < |s.holds| && s.holds[i].run == run ==>
                  t.holds[i].run == run && t.holds[i].released == s.holds[i].released)
            && (forall i :: |s.holds| <= i < |t.holds| ==> t.holds[i].run != run)
  {
    hide Next, IsActionTime, Effective, ActiveHold, CountHolds;
    if m < n {
      PlacedForGood(l, events, m, n - 1, run);
      NextRight(l, At(l, events, n - 1), events[n - 1]);
    }
  }

  /** A run in the graph was placed by one fire of its trading date, at a clock time inside the action
      window, on a nonempty universe, and that fire saw `run_now` or else a fleet that may run and no
      answer; the run carries that fire's failures exactly when its fleet was degraded and unanswered.
      The fire's date is an argument of the command, so it need not be its clock's date. */
  lemma {:induction false} PlacedOnce(l: Listing, events: seq<Event>, n: nat, run: RunId) returns (k: nat)
    requires n <= |events| && run in At(l, events, n).runs
    ensures k < n && events[k].FireAt?
    ensures run !in At(l, events, k).runs && run in At(l, events, k + 1).runs
    ensures var f := events[k].fire;
            && run == Scheduled(f.day) && f.calendar == Session && IsActionTime(f.now)
            && f.universe != [] && At(l, events, n).runs[run].tickers == f.universe
            && var answer := Effective(l, At(l, events, k + 1).answers, run);
               && (answer == Some(RunNow) || (answer.None? && f.readiness.state in {Ready, Degraded}))
               && At(l, events, n).runs[run].degradedBy
                  == if answer.None? && f.readiness.state == Degraded then Some(f.readiness.failures) else None
    ensures forall j :: k < j <= n ==> run in At(l, events, j).runs
  {
    hide Next, IsActionTime, Effective, ReleasesRight, HoldsRight;
    var s := At(l, events, n - 1);
    NextRight(l, s, events[n - 1]);
    if run in s.runs {
      k := PlacedOnce(l, events, n - 1, run);
    } else {
      k := n - 1;
    }
  }

  /** A hold is released only by a fire that saw a fleet that may run and no answer; that fire
      places the run exactly when the universe is not empty. */
  lemma ReleaseMeansPlacing(l: Listing, events: seq<Event>, n: nat, i: nat)
    requires n < |events| && i < |At(l, events, n).holds| && i < |At(l, events, n + 1).holds|
    requires At(l, events, n).holds[i].released.None? && At(l, events, n + 1).holds[i].released.Some?
    ensures events[n].FireAt?
    ensures var f, run := events[n].fire, At(l, events, n).holds[i].run;
            && run == Scheduled(f.day) && run !in At(l, events, n).runs && IsActionTime(f.now)
            && f.readiness.state in {Ready, Degraded} && Effective(l, At(l, events, n + 1).answers, run).None?
            && (run in At(l, events, n + 1).runs <==> f.universe != [])
  {
    hide Next, IsActionTime, Effective, PlacesRight, HoldsRight;
    NextRight(l, At(l, events, n), events[n]);
  }

  // ----- notices -------------------------------------------------------------------------------

  /** The graph remembers that `x` was sent. */
  ghost predicate Remembered(s: State, x: Notice) {
    match x
    case DegradedNotice(run) => run in s.runs && s.runs[run].degradedNotified.Some?
    case HoldNotice(run, ordinal) =>
      exists i :: 0 <= i < |s.holds| && s.holds[i].run == run && s.holds[i].ordinal == ordinal && s.holds[i].notified.Some?
  }

  lemma NoticeNames(l: Listing, s: State, f: Fire)
    requires Fired(l, s, f).notice.Some?
    ensures var x, t, run := Fired(l, s, f).notice.value, Fired(l, s, f).state, Scheduled(f.day);
            match x
            case DegradedNotice(r) =>
              r in t.runs && t.runs[r].degradedNotified.Some? && (r in s.runs ==> s.runs[r].degradedNotified.None?)
            case HoldNotice(r, ordinal) =>
              exists i :: 0 <= i < |t.holds| && t.holds[i].run == r && t.holds[i].ordinal == ordinal
                && t.holds[i].notified.Some? && (i < |s.holds| ==> s.holds[i].notified.None?)
  {
    hide IsActionTime, Effective, PolledAll, Answered, ActiveHold, CountHolds;
    AnsweredFacts(l, s, f);
    var t, r := Answered(l, s, f), Fired(l, s, f);
    if r.notice.value.HoldNotice? {
      var i := if ActiveHold(t.holds, Scheduled(f.day)).Some? then ActiveHold(t.holds, Scheduled(f.day)).value else |t.holds|;
      assert r.state.holds[i].notified.Some?;
    }
  }

  lemma NoticeIsNewAndRemembered(l: Listing, s: State, f: Fire)
    requires HoldsKept(s.holds) && Fired(l, s, f).notice.Some?
    ensures Remembered(Fired(l, s, f).state, Fired(l, s, f).notice.value)
    ensures !Remembered(s, Fired(l, s, f).notice.value)
  {
    hide Fired, HoldsKept, PlacesRight;
    FireKeepsHolds(l, s, f);
    FireRight(l, s, f);
    NoticeNames(l, s, f);
    var x, t := Fired(l, s, f).notice.value, Fired(l, s, f).state;
    if x.HoldNotice? && Remembered(s, x) {
      var i :| 0 <= i < |t.holds| && t.holds[i].run == x.run && t.holds[i].ordinal == x.ordinal
               && t.holds[i].notified.Some? && (i < |s.holds| ==> s.holds[i].notified.None?);
      var j :| 0 <= j < |s.holds| && s.holds[j].run == x.run && s.holds[j].ordinal == x.ordinal && s.holds[j].notified.Some?;
      SameKeySameHold(t.holds, i, j);
    }
  }

  lemma SameKeySameHold(holds: seq<Hold>, i: nat, j: nat)
    requires HoldsKept(holds) && i < |holds| && j < |holds|
    requires holds[i].run == holds[j].run && holds[i].ordinal == holds[j].ordinal
    ensures i == j
  {
    if i < j { CountGrows(holds, i, j, holds[i].run); }
    if j < i { CountGrows(holds, j, i, holds[i].run); }
  }

  lemma {:induction false} RemembersOn(l: Listing, events: seq<Event>, m: nat, n: nat, x: Notice)
    requires m <= n <= |events| && Remembered(At(l, events, m), x)
    ensures Remembered(At(l, events, n), x)
  {
    hide Next, IsActionTime, Effective, HoldsRight;
    if m < n {
      RemembersOn(l, events, m, n - 1, x);
      var s := At(l, events, n - 1);
      NextRight(l, s, events[n - 1]);
      if x.HoldNotice? {
        var i :| 0 <= i < |s.holds| && s.holds[i].run == x.run && s.holds[i].ordinal == x.ordinal && s.holds[i].notified.Some?;
        assert At(l, events, n).holds[i].notified.Some?;
      }
    }
  }

  lemma OneStep(l: Listing, events: seq<Event>, n: nat)
    requires n < |events|
    ensures At(l, events, n + 1) == Next(l, At(l, events, n), events[n])
  {
  }

  /** Each hold and each degraded run gets at most one notice, however often sending failed before. */
  lemma NoticeAtMostOnce(l: Listing, events: seq<Event>, m: nat, n: nat)
    requires InTimeOrder(events) && m < n < |events|
    requires NoticeOf(l, At(l, events, m), events[m]).Some? && NoticeOf(l, At(l, events, n), events[n]).Some?
    ensures NoticeOf(l, At(l, events, m), events[m]) != NoticeOf(l, At(l, events, n), events[n])
  {
    hide At, Fired, HoldsKept, AnswersKept, Remembered;
    Reachable(l, events, m);
    Reachable(l, events, n);
    NoticeIsNewAndRemembered(l, At(l, events, m), events[m].fire);
    NoticeIsNewAndRemembered(l, At(l, events, n), events[n].fire);
    OneStep(l, events, m);
    RemembersOn(l, events, m + 1, n, NoticeOf(l, At(l, events, m), events[m]).value);
  }
}
