/** What one fire of the dispatcher changes, and when: each fact it can write, each outcome and each
    notice, as an exact condition on the facts before and after and on what the fire meets. */
module DispatchLaws {
  import opened Options
  import opened Dispatch
  import opened DispatchSafety

  /** Some hold of the run is not released. */
  ghost predicate IsHeld(holds: seq<Hold>, run: RunId) {
    exists i :: 0 <= i < |holds| && holds[i].run == run && holds[i].released.None?
  }

  lemma HeldIsActive(holds: seq<Hold>, run: RunId)
    ensures ActiveHold(holds, run).Some? <==> IsHeld(holds, run)
  {
    if ActiveHold(holds, run).Some? { assert ActiveFor(holds[ActiveHold(holds, run).value], run); }
  }

  /** The fire decides on its run: the day is open, the clock inside the window, the run not placed. */
  predicate Decides(s: State, f: Fire) {
    f.calendar == Session && IsActionTime(f.now) && Scheduled(f.day) !in s.runs
  }

  predicate MayRun(f: Fire) { f.readiness.state == Ready || f.readiness.state == Degraded }

  /** What the run's answer is once the fire has polled. */
  function AnswerSeen(l: Listing, s: State, f: Fire): Option<Answer> {
    Effective(l, Fired(l, s, f).state.answers, Scheduled(f.day))
  }

  lemma SeenIsAnswered(l: Listing, s: State, f: Fire)
    ensures f.calendar == Session ==> Fired(l, s, f).state.answers == Answered(l, s, f).answers
    ensures f.calendar != Session ==> Fired(l, s, f).state == s
  {
    hide IsActionTime, Effective, PolledAll, ActiveHold, CountHolds, Marked;
  }

  /** Which outcome a fire has. */
  lemma OutcomeExactly(l: Listing, s: State, f: Fire)
    ensures var r, run, answer := Fired(l, s, f), Scheduled(f.day), AnswerSeen(l, s, f);
            && (r.outcome == CalendarExceeded <==> f.calendar == BeyondWindow)
            && (r.outcome == AlreadyPlaced <==> f.calendar == Session && run in s.runs)
            && (r.outcome == Placed <==> run !in s.runs && run in r.state.runs)
            && (r.outcome == EmptyUniverse <==>
                  Decides(s, f) && f.universe == [] && (answer == Some(RunNow) || (answer.None? && MayRun(f))))
            && (r.outcome == Held <==>
                  if Decides(s, f) then answer.None? && !MayRun(f)
                  else f.calendar == Session && run !in s.runs && IsHeld(s.holds, run))
  {
    HeldIsActive(s.holds, Scheduled(f.day));
    SeenIsAnswered(l, s, f);
    AnsweredFacts(l, s, f);
    FirePlacesRight(l, s, f);
    hide IsActionTime, Effective, PolledAll, Answered, ActiveHold, CountHolds, IsHeld;
    var answer: Option<Answer> := Effective(l, Answered(l, s, f).answers, Scheduled(f.day));
    assert answer.None? || answer.value == RunNow || answer.value == SkipToday;
    if Decides(s, f) { DecidedOutcome(l, s, f); }
  }

  lemma DecidedOutcome(l: Listing, s: State, f: Fire)
    requires Decides(s, f)
    ensures var r, answer := Fired(l, s, f), Effective(l, Answered(l, s, f).answers, Scheduled(f.day));
            r.outcome == if answer == Some(SkipToday) then Skipped
                         else if answer.None? && !MayRun(f) then Held
                         else if f.universe == [] then EmptyUniverse else Placed
  {
    AnsweredFacts(l, s, f);
    hide IsActionTime, Effective, Answered, ActiveHold, CountHolds;
    var answer: Option<Answer> := Effective(l, Answered(l, s, f).answers, Scheduled(f.day));
    assert answer.None? || answer.value == RunNow || answer.value == SkipToday;
  }

  /** A notice about a degraded run goes out exactly when the fire acts on a degraded run nobody was told
      of and the send succeeds; the run then remembers it. */
  lemma DegradedNoticeExactly(l: Listing, s: State, f: Fire)
    ensures var r, run := Fired(l, s, f), Scheduled(f.day);
            && (r.notice == Some(DegradedNotice(run)) <==>
                  && f.calendar == Session && IsActionTime(f.now) && f.sent.Some?
                  && run in r.state.runs && r.state.runs[run].degradedBy.Some?
                  && (run in s.runs ==> s.runs[run].degradedNotified.None?))
            && (forall x :: x in r.state.runs && x != run ==> x in s.runs && r.state.runs[x] == s.runs[x])
            && (run in r.state.runs ==>
                  r.state.runs[run].degradedNotified
                  == if r.notice == Some(DegradedNotice(run)) then Some(f.now)
                     else if run in s.runs then s.runs[run].degradedNotified else None)
  {
    AnsweredFacts(l, s, f);
    hide IsActionTime, Effective, Answered, ActiveHold, CountHolds;
    if Decides(s, f) { DecidedDegradedNotice(l, s, f); }
  }

  lemma DecidedDegradedNotice(l: Listing, s: State, f: Fire)
    requires Decides(s, f)
    ensures var r, run := Fired(l, s, f), Scheduled(f.day);
            && (r.notice == Some(DegradedNotice(run)) <==>
                  f.sent.Some? && run in r.state.runs && r.state.runs[run].degradedBy.Some?)
            && (forall x :: x in r.state.runs && x != run ==> x in s.runs && r.state.runs[x] == s.runs[x])
            && (run in r.state.runs ==>
                  r.state.runs[run].degradedNotified == if r.notice == Some(DegradedNotice(run)) then Some(f.now) else None)
  {
    AnsweredFacts(l, s, f);
    hide IsActionTime, Effective, Answered, ActiveHold, CountHolds;
    var answer: Option<Answer> := Effective(l, Answered(l, s, f).answers, Scheduled(f.day));
    assert answer.None? || answer.value == RunNow || answer.value == SkipToday;
  }

  /** A hold is written exactly when the fire decides on a fleet that may not run, nobody answered and no
      hold of the run is in force; it carries the fleet's failures, and whether its notice went out. */
  lemma NewHoldExactly(l: Listing, s: State, f: Fire)
    ensures var r, run := Fired(l, s, f), Scheduled(f.day);
            && |r.state.holds| == |s.holds|
               + (if Decides(s, f) && AnswerSeen(l, s, f).None? && !MayRun(f) && !IsHeld(s.holds, run) then 1 else 0)
            && (|r.state.holds| > |s.holds| ==>
                  var h := r.state.holds[|s.holds|];
                  && h == Hold(run, CountHolds(s.holds, run), f.now, f.readiness.failures, None,
                               if f.sent.Some? then Some(f.now) else None, None)
                  && r.notice == if f.sent.Some? then Some(HoldNotice(run, h.ordinal)) else None)
  {
    HeldIsActive(s.holds, Scheduled(f.day));
    SeenIsAnswered(l, s, f);
    AnsweredFacts(l, s, f);
    hide IsActionTime, Effective, Answered, ActiveHold, CountHolds, IsHeld;
    var answer: Option<Answer> := AnswerSeen(l, s, f);
    assert answer.None? || answer.value == RunNow || answer.value == SkipToday;
  }

  /** How a fire changes the holds there are: only its run's hold in force, which it marks with the
      answer seen, releases for a fleet that may run, or remembers a notice for. */
  lemma HoldChangesExactly(l: Listing, s: State, f: Fire, i: nat)
    requires i < |s.holds|
    ensures i < |Fired(l, s, f).state.holds|
    ensures var r, h, answer := Fired(l, s, f), s.holds[i], AnswerSeen(l, s, f);
            var mine, decides := f.calendar == Session && ActiveHold(s.holds, Scheduled(f.day)) == Some(i), Decides(s, f);
            var told := mine && decides && answer.None? && !MayRun(f) && f.sent.Some? && h.notified.None?;
            && r.state.holds[i] == h.(
                 answered := if mine && h.answered.None? then answer else h.answered,
                 released := if mine && decides && answer.None? && MayRun(f) then Some(f.now) else h.released,
                 notified := if told then Some(f.now) else h.notified)
            && (told ==> r.notice == Some(HoldNotice(h.run, h.ordinal)))
  {
    SeenIsAnswered(l, s, f);
    AnsweredFacts(l, s, f);
    MarkedExactly(l, s, f, i);
    hide IsActionTime, Effective, Answered, ActiveHold, CountHolds;
    if Decides(s, f) { DecidedHoldChanges(l, s, f, i); }
  }

  /** Before it looks at placement a fire only marks the hold in force, with the answer in effect. */
  lemma MarkedExactly(l: Listing, s: State, f: Fire, i: nat)
    requires i < |s.holds|
    ensures i < |Answered(l, s, f).holds|
    ensures var t, h := Answered(l, s, f), s.holds[i];
            t.holds[i] == h.(answered := if ActiveHold(s.holds, Scheduled(f.day)) == Some(i) && h.answered.None?
                                         then Effective(l, t.answers, Scheduled(f.day)) else h.answered)
  {
    hide Effective, PolledAll, ActiveHold;
  }

  lemma DecidedHoldChanges(l: Listing, s: State, f: Fire, i: nat)
    requires i < |s.holds| && Decides(s, f)
    ensures |Answered(l, s, f).holds| == |s.holds| && i < |Fired(l, s, f).state.holds|
    ensures var r, t := Fired(l, s, f), Answered(l, s, f);
            var answer, mine := Effective(l, t.answers, Scheduled(f.day)), ActiveHold(s.holds, Scheduled(f.day)) == Some(i);
            var told := mine && answer.None? && !MayRun(f) && f.sent.Some? && s.holds[i].notified.None?;
            && r.state.holds[i] == t.holds[i].(
                 released := if mine && answer.None? && MayRun(f) then Some(f.now) else s.holds[i].released,
                 notified := if told then Some(f.now) else s.holds[i].notified)
            && (told ==> r.notice == Some(HoldNotice(s.holds[i].run, s.holds[i].ordinal)))
  {
    AnsweredFacts(l, s, f);
    hide IsActionTime, Effective, Answered, ActiveHold, CountHolds;
    var answer: Option<Answer> := Effective(l, Answered(l, s, f).answers, Scheduled(f.day));
    assert answer.None? || answer.value == RunNow || answer.value == SkipToday;
  }

  /** No notice goes out but those. */
  lemma OtherwiseNoNotice(l: Listing, s: State, f: Fire)
    requires Fired(l, s, f).notice.Some?
    ensures var r, run := Fired(l, s, f), Scheduled(f.day);
            || r.notice == Some(DegradedNotice(run))
            || (exists i :: 0 <= i < |r.state.holds| && r.notice == Some(HoldNotice(run, r.state.holds[i].ordinal))
                  && r.state.holds[i].run == run && r.state.holds[i].notified == Some(f.now)
                  && (i < |s.holds| ==> s.holds[i].notified.None?))
  {
    var r, run := Fired(l, s, f), Scheduled(f.day);
    AnsweredFacts(l, s, f);
    hide IsActionTime, Effective, PolledAll, Answered, ActiveHold, CountHolds;
    if r.notice.value.HoldNotice? {
      var t := Answered(l, s, f);
      var i := if ActiveHold(t.holds, run).Some? then ActiveHold(t.holds, run).value else |t.holds|;
      assert r.state.holds[i].notified == Some(f.now);
    }
  }

  // ----- polling -------------------------------------------------------------------------------

  /** A fire reads the buttons exactly on an open day with a hold of its run in force. */
  lemma PollsExactly(l: Listing, s: State, f: Fire)
    ensures Fired(l, s, f).state.answers
         == if f.calendar == Session && IsHeld(s.holds, Scheduled(f.day)) && f.polled.Some?
            then PolledAll(s.answers, f.polled.value, f.now) else s.answers
  {
    HeldIsActive(s.holds, Scheduled(f.day));
    SeenIsAnswered(l, s, f);
    hide IsActionTime, Effective, PolledAll, ActiveHold, CountHolds, Marked, Fired, IsHeld;
  }

  ghost predicate Knows(answers: seq<AnswerFact>, id: int) {
    exists k :: 0 <= k < |answers| && answers[k].updateId == id
  }

  /** One of the first `n` buttons is of update `id`. */
  ghost predicate Pressed(callbacks: seq<Callback>, n: nat, id: int)
    requires n <= |callbacks|
  {
    exists j :: 0 <= j < n && callbacks[j].updateId == id
  }

  /** Button `i` was read before, or is of the same update as an earlier one. */
  ghost predicate ReadBefore(answers: seq<AnswerFact>, callbacks: seq<Callback>, i: nat)
    requires i < |callbacks|
  {
    callbacks[i].updateId != 0
    && (Knows(answers, callbacks[i].updateId) || Pressed(callbacks, i, callbacks[i].updateId))
  }

  /** How many of the first `n` buttons are new. */
  ghost function NewButtons(answers: seq<AnswerFact>, callbacks: seq<Callback>, n: nat): nat
    requires n <= |callbacks|
  {
    if n == 0 then 0 else NewButtons(answers, callbacks, n - 1) + if ReadBefore(answers, callbacks, n - 1) then 0 else 1
  }

  lemma {:induction false} PolledIds(answers: seq<AnswerFact>, callbacks: seq<Callback>, now: nat, id: int)
    requires id != 0
    ensures Knows(PolledAll(answers, callbacks, now), id) <==> Knows(answers, id) || Pressed(callbacks, |callbacks|, id)
  {
    if callbacks != [] {
      var most, last := callbacks[..|callbacks| - 1], callbacks[|callbacks| - 1];
      PolledIds(answers, most, now, id);
      var before, after := PolledAll(answers, most, now), PolledAll(answers, callbacks, now);
      assert Pressed(callbacks, |callbacks|, id) <==> Pressed(most, |most|, id) || last.updateId == id by {
        if j :| 0 <= j < |most| && most[j].updateId == id { assert callbacks[j].updateId == id; }
      }
      RecordedIds(before, last, now, id);
    }
  }

  lemma RecordedIds(answers: seq<AnswerFact>, c: Callback, now: nat, id: int)
    requires id != 0
    ensures Knows(Recorded(answers, c.run, c.answer, Telegram, now, c.updateId), id) <==>
            Knows(answers, id) || c.updateId == id
  {
    var r := Recorded(answers, c.run, c.answer, Telegram, now, c.updateId);
    if k :| 0 <= k < |answers| && answers[k].updateId == id { assert r[k].updateId == id; }
    if r != answers { assert r[|answers|].updateId == c.updateId; }
  }

  lemma {:induction false} NewButtonsBefore(answers: seq<AnswerFact>, callbacks: seq<Callback>, m: nat, n: nat)
    requires n <= m <= |callbacks|
    ensures NewButtons(answers, callbacks[..m], n) == NewButtons(answers, callbacks, n)
    ensures forall i :: 0 <= i < n ==> (ReadBefore(answers, callbacks[..m], i) <==> ReadBefore(answers, callbacks, i))
  {
    if n > 0 {
      NewButtonsBefore(answers, callbacks, m, n - 1);
      assert forall j :: 0 <= j < n ==> callbacks[..m][j] == callbacks[j];
    }
  }

  /** A poll adds as many facts as it reads new buttons, ... */
  lemma {:induction false} PolledCount(answers: seq<AnswerFact>, callbacks: seq<Callback>, now: nat)
    ensures var r := PolledAll(answers, callbacks, now);
            answers <= r && |r| == |answers| + NewButtons(answers, callbacks, |callbacks|)
  {
    if callbacks == [] {
    } else {
      hide ReadBefore, PolledAll, IsFactOf;
      var n := |callbacks| - 1;
      PolledCount(answers, callbacks[..n], now);
      NewButtonsBefore(answers, callbacks, n, n);
      LastButton(answers, callbacks, now);
    }
  }

  /** ... and every new button becomes one Telegram fact at the time of the fire, in the order of the
      buttons. */
  lemma {:induction false} PolledExactly(answers: seq<AnswerFact>, callbacks: seq<Callback>, now: nat, i: nat)
    requires i < |callbacks| && !ReadBefore(answers, callbacks, i)
    ensures IsFactOf(PolledAll(answers, callbacks, now), |answers| + NewButtons(answers, callbacks, i), callbacks[i], now)
    decreases |callbacks|
  {
    hide ReadBefore, PolledAll, IsFactOf, NewButtons;
    var n := |callbacks| - 1;
    var before, after := PolledAll(answers, callbacks[..n], now), PolledAll(answers, callbacks, now);
    LastButton(answers, callbacks, now);
    PolledCount(answers, callbacks[..n], now);
    NewButtonsBefore(answers, callbacks, n, n);
    if i < n {
      NewButtonsBefore(answers, callbacks, n, i);
      PolledExactly(answers, callbacks[..n], now, i);
      FactStays(before, after, |answers| + NewButtons(answers, callbacks, i), callbacks[i], now);
    }
  }

  ghost predicate IsFactOf(answers: seq<AnswerFact>, k: nat, c: Callback, now: nat) {
    && k < |answers| && answers[k].run == c.run && answers[k].answer == c.answer && answers[k].updateId == c.updateId
    && answers[k].source == Telegram && answers[k].at == now
  }

  lemma FactStays(before: seq<AnswerFact>, after: seq<AnswerFact>, k: nat, c: Callback, now: nat)
    requires before <= after && IsFactOf(before, k, c, now)
    ensures IsFactOf(after, k, c, now)
  {
  }

  lemma LastButton(answers: seq<AnswerFact>, callbacks: seq<Callback>, now: nat)
    requires callbacks != []
    ensures var n := |callbacks| - 1;
            var before, after := PolledAll(answers, callbacks[..n], now), PolledAll(answers, callbacks, now);
            if ReadBefore(answers, callbacks, n) then after == before
            else |after| == |before| + 1 && before <= after && IsFactOf(after, |before|, callbacks[n], now)
  {
    var n := |callbacks| - 1;
    if callbacks[n].updateId != 0 {
      PolledIds(answers, callbacks[..n], now, callbacks[n].updateId);
      assert Pressed(callbacks[..n], n, callbacks[n].updateId) <==> Pressed(callbacks, n, callbacks[n].updateId) by {
        assert forall j :: 0 <= j < n ==> callbacks[..n][j] == callbacks[j];
      }
      assert Knows(PolledAll(answers, callbacks[..n], now), callbacks[n].updateId)
        <==> UpdateRecorded(PolledAll(answers, callbacks[..n], now), callbacks[n].updateId);
    }
  }

  // ----- numbering -----------------------------------------------------------------------------

  function HoldsOf(holds: seq<Hold>, i: nat, run: RunId): set<nat>
    requires i <= |holds|
  {
    set j: nat | j < i && holds[j].run == run
  }

  function AnswersOf(answers: seq<AnswerFact>, i: nat, run: RunId, source: Source): set<nat>
    requires i <= |answers|
  {
    set j: nat | j < i && answers[j].run == run && answers[j].source == source
  }

  lemma HoldsNext(holds: seq<Hold>, i: nat, run: RunId)
    requires i < |holds|
    ensures HoldsOf(holds, i + 1, run) == if holds[i].run == run then HoldsOf(holds, i, run) + {i} else HoldsOf(holds, i, run)
    ensures i !in HoldsOf(holds, i, run)
  {
  }

  lemma AnswersNext(answers: seq<AnswerFact>, i: nat, run: RunId, source: Source)
    requires i < |answers|
    ensures AnswersOf(answers, i + 1, run, source)
         == if answers[i].run == run && answers[i].source == source then AnswersOf(answers, i, run, source) + {i}
            else AnswersOf(answers, i, run, source)
    ensures i !in AnswersOf(answers, i, run, source)
  {
  }

  lemma {:induction false} HoldsCounted(holds: seq<Hold>, i: nat, run: RunId)
    requires i <= |holds|
    ensures CountHolds(holds[..i], run) == |HoldsOf(holds, i, run)|
  {
    if i == 0 {
      assert HoldsOf(holds, i, run) == {};
    } else {
      HoldsCounted(holds, i - 1, run);
      HoldsNext(holds, i - 1, run);
      assert holds[..i][..i - 1] == holds[..i - 1];
      hide HoldsOf;
    }
  }

  lemma {:induction false} AnswersCounted(answers: seq<AnswerFact>, i: nat, run: RunId, source: Source)
    requires i <= |answers|
    ensures CountAnswers(answers[..i], run, source) == |AnswersOf(answers, i, run, source)|
  {
    if i == 0 {
      assert AnswersOf(answers, i, run, source) == {};
    } else {
      AnswersCounted(answers, i - 1, run, source);
      AnswersNext(answers, i - 1, run, source);
      assert answers[..i][..i - 1] == answers[..i - 1];
      hide AnswersOf;
    }
  }

  /** Over every history, a run's holds are numbered 0, 1, 2, ... as they were written, and its answers
      of one source 1, 2, 3, ... */
  lemma NumberedInOrder(l: Listing, events: seq<Event>, n: nat, i: nat)
    requires InTimeOrder(events) && n <= |events|
    ensures var s := At(l, events, n);
            && (i < |s.holds| ==> s.holds[i].ordinal == |HoldsOf(s.holds, i, s.holds[i].run)|)
            && (i < |s.answers| ==>
                  s.answers[i].ordinal == 1 + |AnswersOf(s.answers, i, s.answers[i].run, s.answers[i].source)|)
  {
    Reachable(l, events, n);
    var s := At(l, events, n);
    hide At, HoldsOf, AnswersOf, CountHolds, CountAnswers;
    if i < |s.holds| { HoldsCounted(s.holds, i, s.holds[i].run); }
    if i < |s.answers| { AnswersCounted(s.answers, i, s.answers[i].run, s.answers[i].source); }
  }
}
