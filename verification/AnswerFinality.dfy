/** When the effective answer of a run is final. Both backends take the earliest fact, but of facts
    of one second the in-memory store lists the one written first and PostgreSQL the one with the
    smaller key. */
module AnswerFinality {
  import opened Options
  import opened CreatedAt
  import opened Probing
  import opened Dispatch
  import opened DispatchSafety

  // ----- the order of keys ---------------------------------------------------------------------

  lemma {:induction false} DecimalStart(n: nat)
    requires n >= 1
    ensures Decimal(n)[0] >= '1' && (Decimal(n)[0] == '1' && |Decimal(n)| == 1 ==> n == 1)
  {
    if n >= 10 { DecimalStart(n / 10); }
  }

  /** No number's text sorts before that of 1. */
  lemma OneIsLeast(n: nat)
    requires n >= 2
    ensures Less(Decimal(1), Decimal(n)) && !Less(Decimal(n), Decimal(1))
  {
    DecimalStart(n);
    assert Decimal(1) == "1";
    assert Decimal(1)[1..] == "";
    if Decimal(n)[0] == '1' { assert |Decimal(n)| > 1; }
    LessAsymmetric(Decimal(1), Decimal(n));
  }

  /** Of facts of one source the order of keys is that of the ordinals' texts; a dashboard fact's key
      sorts before a Telegram fact's. */
  lemma KeyOrder(a: AnswerFact, b: AnswerFact)
    ensures a.source == b.source ==> (KeyBefore(a, b) <==> Less(Decimal(a.ordinal), Decimal(b.ordinal)))
    ensures a.source == Dashboard && b.source == Telegram ==> KeyBefore(a, b) && !KeyBefore(b, a)
  {
    if a.source == b.source {
      CancelPrefix(if a.source == Dashboard then "dashboard:" else "telegram:", Decimal(a.ordinal), Decimal(b.ordinal));
    } else {
      assert KeyTail(a)[0] == if a.source == Dashboard then 'd' else 't';
      assert KeyTail(b)[0] == if b.source == Dashboard then 'd' else 't';
    }
  }

  lemma SameTailSameKey(a: AnswerFact, b: AnswerFact)
    requires KeyTail(a) == KeyTail(b)
    ensures a.source == b.source && a.ordinal == b.ordinal
  {
    assert KeyTail(a)[0] == if a.source == Dashboard then 'd' else 't';
    assert KeyTail(b)[0] == if b.source == Dashboard then 'd' else 't';
    var k := if a.source == Dashboard then 10 else 9;
    assert KeyTail(a)[k..] == Decimal(a.ordinal) && KeyTail(b)[k..] == Decimal(b.ordinal);
    DecimalInjective(a.ordinal, b.ordinal);
  }

  lemma SoonerTransitive(l: Listing, a: AnswerFact, b: AnswerFact, c: AnswerFact)
    requires Sooner(l, a, b) && Sooner(l, b, c)
    ensures Sooner(l, a, c)
  {
    hide KeyTail;
    if KeyBefore(a, b) && KeyBefore(b, c) { LessTransitive(KeyTail(a), KeyTail(b), KeyTail(c)); }
  }

  /** Facts neither of which comes sooner have one time and one key. */
  lemma SoonerTotal(a: AnswerFact, b: AnswerFact)
    requires !Sooner(ByKey, a, b) && !Sooner(ByKey, b, a)
    ensures a.at == b.at && a.source == b.source && a.ordinal == b.ordinal
  {
    hide KeyTail;
    if KeyTail(a) != KeyTail(b) { LessTotal(KeyTail(a), KeyTail(b)); }
    SameTailSameKey(a, b);
  }

  // ----- the effective fact --------------------------------------------------------------------

  /** The effective fact is one of the run's, and none of the run's comes sooner. */
  lemma {:induction false} NoneSooner(l: Listing, answers: seq<AnswerFact>, run: RunId)
    ensures match Earliest(l, answers, run)
            case None => forall i :: 0 <= i < |answers| ==> answers[i].run != run
            case Some(e) =>
              && e in answers && e.run == run
              && forall i :: 0 <= i < |answers| && answers[i].run == run ==> !Sooner(l, answers[i], e)
  {
    hide KeyBefore;
    if answers != [] {
      var most, last := answers[..|answers| - 1], answers[|answers| - 1];
      NoneSooner(l, most, run);
      var was := Earliest(l, most, run);
      NotSoonerThanItself(l, last);
      if Earliest(l, answers, run) == Some(last) && was.Some? && last != was.value {
        forall i | 0 <= i < |answers| && answers[i].run == run ensures !Sooner(l, answers[i], last) {
          if i < |most| {
            assert answers[i] == most[i];
            if Sooner(l, answers[i], last) && Sooner(l, last, was.value) { SoonerTransitive(l, answers[i], last, was.value); }
          }
        }
      }
    }
  }

  lemma NotSoonerThanItself(l: Listing, a: AnswerFact)
    ensures !Sooner(l, a, a)
  {
    LessIrreflexive(KeyTail(a));
  }

  lemma SameKeySameFact(answers: seq<AnswerFact>, now: nat, i: nat, j: nat)
    requires AnswersKept(answers, now) && i < |answers| && j < |answers|
    requires answers[i].run == answers[j].run && answers[i].source == answers[j].source && answers[i].ordinal == answers[j].ordinal
    ensures i == j
  {
    if i < j { AnswerCountGrows(answers, i, j, answers[i].run, answers[i].source); }
    if j < i { AnswerCountGrows(answers, j, i, answers[i].run, answers[i].source); }
  }

  /** The first fact of a run from a source has ordinal 1. */
  lemma {:induction false} FirstOfSource(answers: seq<AnswerFact>, now: nat, n: nat, run: RunId, source: Source) returns (j: nat)
    requires AnswersKept(answers, now) && n <= |answers| && CountAnswers(answers[..n], run, source) > 0
    ensures j < n && answers[j].run == run && answers[j].source == source && answers[j].ordinal == 1
  {
    assert answers[..n][..n - 1] == answers[..n - 1];
    if CountAnswers(answers[..n - 1], run, source) > 0 {
      j := FirstOfSource(answers, now, n - 1, run, source);
    } else {
      j := n - 1;
    }
  }

  /** By key, the effective fact is the first its source gave: later ones of its second have keys that
      sort after it. */
  lemma EffectiveIsFirst(answers: seq<AnswerFact>, now: nat, run: RunId)
    requires AnswersKept(answers, now) && Earliest(ByKey, answers, run).Some?
    ensures Earliest(ByKey, answers, run).value.ordinal == 1
  {
    var e := Earliest(ByKey, answers, run).value;
    NoneSooner(ByKey, answers, run);
    var i :| 0 <= i < |answers| && answers[i] == e;
    if e.ordinal != 1 {
      var j := FirstOfSource(answers, now, i, run, e.source);
      assert !Sooner(ByKey, answers[j], e);
      KeyOrder(answers[j], e);
      OneIsLeast(e.ordinal);
      assert false;
    }
  }

  /** A later fact comes sooner by key exactly when the dashboard gave it in the second of an effective
      Telegram fact. */
  lemma SoonerExactly(answers: seq<AnswerFact>, now: nat, m: nat, i: nat, run: RunId)
    requires AnswersKept(answers, now) && m <= i < |answers| && answers[i].run == run
    requires Earliest(ByKey, answers[..m], run).Some?
    ensures var x, e := answers[i], Earliest(ByKey, answers[..m], run).value;
            Sooner(ByKey, x, e) <==> x.at == e.at && x.source == Dashboard && e.source == Telegram
  {
    var x, e := answers[i], Earliest(ByKey, answers[..m], run).value;
    PrefixKept(answers, now, m);
    NoneSooner(ByKey, answers[..m], run);
    EffectiveIsFirst(answers[..m], now, run);
    var j :| 0 <= j < m && answers[..m][j] == e;
    assert answers[j] == e && e.at <= x.at;
    KeyOrder(x, e);
    KeyOrder(e, x);
    if x.source == e.source {
      AnswerCountGrows(answers, j, i, run, x.source);
      OneIsLeast(x.ordinal);
    }
  }

  lemma PrefixKept(answers: seq<AnswerFact>, now: nat, m: nat)
    requires AnswersKept(answers, now) && m <= |answers|
    ensures AnswersKept(answers[..m], now)
  {
    forall i | 0 <= i < m ensures answers[..m][..i] == answers[..i] {}
  }

  // ----- over histories ------------------------------------------------------------------------

  lemma {:induction false} AnswersGrow(l: Listing, events: seq<Event>, m: nat, n: nat)
    requires InTimeOrder(events) && m <= n <= |events|
    ensures At(l, events, m).answers <= At(l, events, n).answers
  {
    hide Next, HoldsKept, AnswersKept;
    if m < n {
      AnswersGrow(l, events, m, n - 1);
      Reachable(l, events, n - 1);
      NextKeepsAnswers(l, At(l, events, n - 1), events[n - 1], if n == 1 then 0 else TimeOf(events[n - 2]));
    }
  }

  /** Among the facts `after`, of which `before` are the first, the dashboard gave one in the second of
      the effective Telegram fact, and facts are listed by key. */
  ghost predicate Displaced(l: Listing, before: seq<AnswerFact>, after: seq<AnswerFact>, run: RunId) {
    && l.ByKey? && Earliest(l, before, run).Some? && Earliest(l, before, run).value.source == Telegram
    && exists i :: |before| <= i < |after| && after[i].run == run && after[i].source == Dashboard
                   && after[i].at == Earliest(l, before, run).value.at
  }

  lemma GrownIsFinalExactly(l: Listing, before: seq<AnswerFact>, after: seq<AnswerFact>, now: nat, run: RunId)
    requires AnswersKept(after, now) && before <= after && Earliest(l, before, run).Some?
    ensures Earliest(l, after, run) == Earliest(l, before, run) <==> !Displaced(l, before, after, run)
  {
    var m, e := |before|, Earliest(l, before, run).value;
    assert after[..m] == before;
    NoneSooner(l, before, run);
    NoneSooner(l, after, run);
    var j :| 0 <= j < m && before[j] == e;
    assert after[j] == e;
    assert Earliest(l, after, run).Some?;
    var last := Earliest(l, after, run).value;
    var k :| 0 <= k < |after| && after[k] == last;
    if l.ByInsertion? {
      assert forall i :: m <= i < |after| ==> after[j].at <= after[i].at;
      InsertedIsFinal(before, after, run);
    } else {
      forall i | m <= i < |after| && after[i].run == run
        ensures Sooner(l, after[i], e) <==> after[i].at == e.at && after[i].source == Dashboard && e.source == Telegram
      {
        SoonerExactly(after, now, m, i, run);
      }
      hide AnswersKept, Earliest;
      if !Displaced(l, before, after, run) {
        assert !Sooner(l, last, e) by { if k < m { assert before[k] == last; } }
        SoonerTotal(last, e);
        SameKeySameFact(after, now, k, j);
      }
    }
  }

  lemma {:induction false} InsertedIsFinal(before: seq<AnswerFact>, after: seq<AnswerFact>, run: RunId)
    requires before <= after && Earliest(ByInsertion, before, run).Some?
    requires forall i :: |before| <= i < |after| ==> !Sooner(ByInsertion, after[i], Earliest(ByInsertion, before, run).value)
    ensures Earliest(ByInsertion, after, run) == Earliest(ByInsertion, before, run)
    decreases |after|
  {
    hide Earliest, Sooner;
    if |after| > |before| {
      var most, last := after[..|after| - 1], after[|after| - 1];
      assert forall i :: 0 <= i < |most| ==> most[i] == after[i];
      InsertedIsFinal(before, most, run);
      NewFactTakesOver(ByInsertion, most, last, run);
      assert most + [last] == after;
    } else {
      assert before == after;
    }
  }

  /** The effective answer of a run, once there is one, stays exactly as long as no dashboard fact of
      the second of an effective Telegram fact is recorded after it; listed in insertion order, always. */
  lemma AnswerIsFinalExactly(l: Listing, events: seq<Event>, m: nat, n: nat, run: RunId)
    requires InTimeOrder(events) && m <= n <= |events|
    requires Earliest(l, At(l, events, m).answers, run).Some?
    ensures Earliest(l, At(l, events, n).answers, run) == Earliest(l, At(l, events, m).answers, run)
            <==> !Displaced(l, At(l, events, m).answers, At(l, events, n).answers, run)
  {
    AnswersGrow(l, events, m, n);
    Reachable(l, events, n);
    GrownIsFinalExactly(l, At(l, events, m).answers, At(l, events, n).answers,
                        if n == 0 then 0 else TimeOf(events[n - 1]), run);
  }

  /** An effective `skip_today` before placement means the run is never placed, unless the answer is
      displaced first. */
  lemma SkipMeansNever(l: Listing, events: seq<Event>, m: nat, n: nat, run: RunId)
    requires InTimeOrder(events) && m <= n <= |events|
    requires Effective(l, At(l, events, m).answers, run) == Some(SkipToday) && run !in At(l, events, m).runs
    requires !Displaced(l, At(l, events, m).answers, At(l, events, n).answers, run)
    ensures run !in At(l, events, n).runs
  {
    hide At, IsActionTime, Earliest;
    if run in At(l, events, n).runs {
      var k := PlacedOnce(l, events, n, run);
      if m <= k {
        AnswersGrow(l, events, k + 1, n);
        AnswersGrow(l, events, m, k + 1);
        AnswerIsFinalExactly(l, events, m, k + 1, run);
      }
    }
  }

  // ----- listing by key ------------------------------------------------------------------------

  /** `listed` holds the facts in key order; facts of different runs are not compared. */
  ghost predicate ListedByKey(listed: seq<AnswerFact>, answers: seq<AnswerFact>) {
    && (forall x :: x in listed <==> x in answers)
    && (forall i, j :: 0 <= i < j < |listed| && listed[i].run == listed[j].run ==> !KeyBefore(listed[j], listed[i]))
  }

  /** Taking the first of the earliest from the facts in key order is taking the earliest by key. */
  lemma KeyListingIsByKey(listed: seq<AnswerFact>, answers: seq<AnswerFact>, now: nat, run: RunId)
    requires AnswersKept(answers, now) && ListedByKey(listed, answers)
    ensures Earliest(ByInsertion, listed, run) == Earliest(ByKey, answers, run)
  {
    NoneSooner(ByInsertion, listed, run);
    NoneSooner(ByKey, answers, run);
    var a, b := Earliest(ByInsertion, listed, run), Earliest(ByKey, answers, run);
    assert a.None? <==> b.None? by {
      if a.Some? { var i :| 0 <= i < |answers| && answers[i] == a.value; }
      if b.Some? { var i :| 0 <= i < |listed| && listed[i] == b.value; }
    }
    if a.Some? {
      assert b.value in listed && a.value in answers;
      FirstListed(listed, run);
      var i :| 0 <= i < |answers| && answers[i] == a.value;
      var j :| 0 <= j < |answers| && answers[j] == b.value;
      assert !Sooner(ByKey, answers[i], b.value);
      assert !Sooner(ByKey, b.value, a.value);
      hide KeyBefore, Earliest, AnswersKept;
      SoonerTotal(a.value, b.value);
      SameKeySameFact(answers, now, i, j);
    }
  }

  /** In a key-ordered list no fact of the run comes sooner by key than the first of the earliest. */
  lemma {:induction false} FirstListed(listed: seq<AnswerFact>, run: RunId)
    requires forall i, j :: 0 <= i < j < |listed| && listed[i].run == listed[j].run ==> !KeyBefore(listed[j], listed[i])
    requires Earliest(ByInsertion, listed, run).Some?
    ensures forall x :: x in listed && x.run == run ==> !Sooner(ByKey, x, Earliest(ByInsertion, listed, run).value)
  {
    hide KeyBefore;
    var most, last := listed[..|listed| - 1], listed[|listed| - 1];
    NotSoonerThanItself(ByKey, last);
    var was, e := Earliest(ByInsertion, most, run), Earliest(ByInsertion, listed, run).value;
    NoneSooner(ByInsertion, most, run);
    if was.Some? {
      FirstListed(most, run);
      var k :| 0 <= k < |most| && most[k] == was.value;
      assert listed[k] == was.value;
    }
    forall x | x in listed && x.run == run ensures !Sooner(ByKey, x, e) {
      var i :| 0 <= i < |listed| && listed[i] == x;
      if i < |most| { assert most[i] == x; }
    }
  }

  // ----- buttons of the fire's own run ---------------------------------------------------------

  /** Every button a fire reads names the fire's own run. */
  ghost predicate OwnButtons(events: seq<Event>) {
    forall k :: 0 <= k < |events| && events[k].FireAt? && events[k].fire.polled.Some? ==>
      forall i :: 0 <= i < |events[k].fire.polled.value| ==>
        events[k].fire.polled.value[i].run == Scheduled(events[k].fire.day)
  }

  /** Once Telegram answered for a run in a fact that `own` picks, the run's active hold is marked, so
      the dashboard answers no more. */
  ghost predicate Sealed(s: State, own: AnswerFact -> bool) {
    forall i, j :: 0 <= i < |s.answers| && 0 <= j < |s.holds| && own(s.answers[i]) ==>
      (s.answers[i].source == Telegram && ActiveFor(s.holds[j], s.answers[i].run) ==> s.holds[j].answered.Some?)
  }

  function Every(a: AnswerFact): bool { true }

  lemma {:induction false} PolledAreOwn(answers: seq<AnswerFact>, callbacks: seq<Callback>, now: nat, run: RunId)
    requires forall i :: 0 <= i < |callbacks| ==> callbacks[i].run == run
    ensures var r := PolledAll(answers, callbacks, now);
            answers <= r && forall i :: |answers| <= i < |r| ==> r[i].run == run
  {
    if callbacks != [] { PolledAreOwn(answers, callbacks[..|callbacks| - 1], now, run); }
  }

  /** The hold a fire found active is marked when an answer is in effect; nothing else marks a hold. */
  lemma FireMarks(l: Listing, s: State, f: Fire)
    ensures var t, active := Fired(l, s, f).state, ActiveHold(s.holds, Scheduled(f.day));
            && |s.holds| <= |t.holds|
            && (t.answers != s.answers ==> active.Some?)
            && (f.calendar == Session && active.Some? && Effective(l, t.answers, Scheduled(f.day)).Some? ==>
                  t.holds[active.value].answered.Some?)
            && (f.calendar != Session ==> t == s)
  {
    hide IsActionTime, Effective, PolledAll, ActiveHold, CountHolds;
    AnsweredFacts(l, s, f);
    var answer: Option<Answer> := Effective(l, Answered(l, s, f).answers, Scheduled(f.day));
    assert answer.None? || answer.value == RunNow || answer.value == SkipToday;
  }

  lemma FireKeepsSealed(l: Listing, s: State, f: Fire, own: AnswerFact -> bool)
    requires Sealed(s, own) && HoldsKept(s.holds)
    requires f.polled.Some? ==> ForRun(s.answers, PolledAll(s.answers, f.polled.value, f.now), own, Scheduled(f.day))
    ensures Sealed(Fired(l, s, f).state, own)
  {
    var t, run := Fired(l, s, f).state, Scheduled(f.day);
    FireMarks(l, s, f);
    FireRight(l, s, f);
    FiredAnswers(l, s, f);
    if f.polled.Some? { PolledAreTelegram(s.answers, f.polled.value, f.now); }
    NoneSooner(l, t.answers, run);
    hide IsActionTime, Fired, PolledAll, ActiveHold, CountHolds, Earliest, PlacesRight;
    assert ForRun(s.answers, t.answers, own, run);
    if |t.holds| > |s.holds| { assert forall i :: 0 <= i < |t.answers| ==> t.answers[i].run != t.holds[|s.holds|].run; }
    if i :| |s.answers| <= i < |t.answers| && t.answers[i].run == run {
      assert Effective(l, t.answers, run).Some?;
    }
    hide HoldsRight, ReleasesRight, Effective;
    ProgressMeans(l, s, f);
    MarksSeal(s, t, own, run);
  }

  /** Of the facts added to `before`, those that `own` picks are of one run. */
  ghost predicate ForRun(before: seq<AnswerFact>, after: seq<AnswerFact>, own: AnswerFact -> bool, run: RunId) {
    forall i :: |before| <= i < |after| && own(after[i]) ==> after[i].run == run
  }

  /** A hold's later form is of the same run, active only if it was, and keeps its mark. */
  predicate HoldKeeps(before: Hold, after: Hold) {
    && after.run == before.run
    && (after.released.None? ==> before.released.None?)
    && (before.answered.Some? ==> after.answered.Some?)
  }

  lemma ProgressMeans(l: Listing, s: State, f: Fire)
    ensures var t := Fired(l, s, f).state;
            && |s.holds| <= |t.holds|
            && forall j :: 0 <= j < |s.holds| ==> HoldKeeps(s.holds[j], t.holds[j])
  {
    FireRight(l, s, f);
    hide Fired, PlacesRight, HoldsRight;
  }

  lemma MarksSeal(s: State, t: State, own: AnswerFact -> bool, run: RunId)
    requires Sealed(s, own) && HoldsKept(s.holds) && |s.holds| <= |t.holds| <= |s.holds| + 1 && s.answers <= t.answers
    requires ForRun(s.answers, t.answers, own, run)
    requires forall j :: 0 <= j < |s.holds| ==> HoldKeeps(s.holds[j], t.holds[j])
    requires |t.holds| > |s.holds| ==> forall i :: 0 <= i < |t.answers| ==> t.answers[i].run != t.holds[|s.holds|].run
    requires (exists i :: |s.answers| <= i < |t.answers| && t.answers[i].run == run) && ActiveHold(s.holds, run).Some? ==>
               t.holds[ActiveHold(s.holds, run).value].answered.Some?
    ensures Sealed(t, own)
  {
    forall i, j | 0 <= i < |t.answers| && 0 <= j < |t.holds| && own(t.answers[i])
      ensures t.answers[i].source == Telegram && ActiveFor(t.holds[j], t.answers[i].run) ==> t.holds[j].answered.Some?
    {
      if t.answers[i].source == Telegram && ActiveFor(t.holds[j], t.answers[i].run) && j < |s.holds| {
        if i < |s.answers| { assert t.answers[i] == s.answers[i]; } else { OnlyActive(s.holds, j, run); }
      }
    }
  }

  lemma OnlyActive(holds: seq<Hold>, j: nat, run: RunId)
    requires HoldsKept(holds) && j < |holds| && ActiveFor(holds[j], run)
    ensures ActiveHold(holds, run) == Some(j)
  {
  }

  lemma {:induction false} SealedThroughout(l: Listing, events: seq<Event>, n: nat)
    requires InTimeOrder(events) && OwnButtons(events) && n <= |events|
    ensures Sealed(At(l, events, n), Every)
  {
    hide Next, Sealed;
    if n == 0 {
      SealedAtStart(l, events, Every);
    } else {
      hide At, Next, Sealed, OwnButtons, AnswersKept, HoldsKept, InTimeOrder;
      SealedThroughout(l, events, n - 1);
      Reachable(l, events, n - 1);
      OneStep(l, events, n - 1);
      OwnButtonsAt(events, n - 1);
      if events[n - 1].FireAt? { ReadsOwnRun(l, At(l, events, n - 1), events[n - 1].fire); }
      StepKeepsSealed(l, At(l, events, n - 1), events[n - 1], Every);
    }
  }

  lemma SealedAtStart(l: Listing, events: seq<Event>, own: AnswerFact -> bool)
    ensures Sealed(At(l, events, 0), own)
  {
    hide Next;
  }

  ghost predicate ReadsOwn(e: Event) {
    e.FireAt? && e.fire.polled.Some? ==>
      forall i :: 0 <= i < |e.fire.polled.value| ==> e.fire.polled.value[i].run == Scheduled(e.fire.day)
  }

  lemma OwnButtonsAt(events: seq<Event>, n: nat)
    requires OwnButtons(events) && n < |events|
    ensures ReadsOwn(events[n])
  {
  }

  lemma ReadsOwnRun(l: Listing, s: State, f: Fire)
    requires ReadsOwn(FireAt(f))
    ensures Polls(s, FireAt(f), Every)
  {
    if f.polled.Some? { PolledAreOwn(s.answers, f.polled.value, f.now, Scheduled(f.day)); }
  }

  /** What a fire reads adds facts that `own` picks for its own run only. */
  ghost predicate Polls(s: State, e: Event, own: AnswerFact -> bool) {
    e.FireAt? && e.fire.polled.Some? ==>
      ForRun(s.answers, PolledAll(s.answers, e.fire.polled.value, e.fire.now), own, Scheduled(e.fire.day))
  }

  lemma StepKeepsSealed(l: Listing, s: State, e: Event, own: AnswerFact -> bool)
    requires Sealed(s, own) && HoldsKept(s.holds) && Polls(s, e, own)
    ensures Sealed(Next(l, s, e), own)
  {
    hide Fired;
    match e
    case FireAt(f) =>
      hide Sealed;
      FireKeepsSealed(l, s, f, own);
    case DashboardAnswer(run, answer, at) =>
  }

  /** If every button read names the run of the fire that reads it, the effective answer is final
      whichever way facts are listed. */
  lemma {:induction false} OwnButtonsAreFinal(l: Listing, events: seq<Event>, m: nat, n: nat, run: RunId)
    requires InTimeOrder(events) && OwnButtons(events) && m <= n <= |events|
    requires Earliest(l, At(l, events, m).answers, run).Some?
    ensures Earliest(l, At(l, events, n).answers, run) == Earliest(l, At(l, events, m).answers, run)
  {
    hide At, Earliest, Fired, Next, OwnButtons, InTimeOrder, Sealed, Displaced;
    if m < n {
      OwnButtonsAreFinal(l, events, m, n - 1, run);
      SealedThroughout(l, events, n - 1);
      OneStep(l, events, n - 1);
      StepNeverDisplaces(l, At(l, events, n - 1), events[n - 1], run);
      AnswerIsFinalExactly(l, events, n - 1, n, run);
    }
  }

  /** The step of a sealed state never displaces an answer: fires add Telegram facts only, and the
      dashboard is refused once a Telegram fact is in effect. */
  lemma StepNeverDisplaces(l: Listing, s: State, e: Event, run: RunId)
    requires Sealed(s, Every) && Earliest(l, s.answers, run).Some?
    ensures !Displaced(l, s.answers, Next(l, s, e).answers, run)
  {
    NoneSooner(l, s.answers, run);
    var fact := Earliest(l, s.answers, run).value;
    var k :| 0 <= k < |s.answers| && s.answers[k] == fact;
    match e
    case FireAt(f) =>
      FiredAnswers(l, s, f);
      if f.polled.Some? { PolledAreTelegram(s.answers, f.polled.value, f.now); }
    case DashboardAnswer(r, answer, at) =>
  }

  lemma {:induction false} PolledAreTelegram(answers: seq<AnswerFact>, callbacks: seq<Callback>, now: nat)
    ensures var r := PolledAll(answers, callbacks, now);
            answers <= r && forall i :: |answers| <= i < |r| ==> r[i].source == Telegram
  {
    if callbacks != [] { PolledAreTelegram(answers, callbacks[..|callbacks| - 1], now); }
  }

  // ----- fires on their own day's clock --------------------------------------------------------

  /** Every fire acts for the date of its clock, as it does unless the date is overridden. */
  ghost predicate OnClock(events: seq<Event>) {
    forall k :: 0 <= k < |events| && events[k].FireAt? ==> events[k].fire.day == events[k].fire.now / 86400
  }

  /** The fact was given on the day of its run. */
  function SameDay(a: AnswerFact): bool { a.run == Scheduled(a.at / 86400) }

  /** No run is held before its day. */
  ghost predicate NoneEarly(holds: seq<Hold>, now: nat) {
    forall j :: 0 <= j < |holds| && holds[j].run.Scheduled? ==> holds[j].run.day <= now / 86400
  }

  lemma {:induction false} PolledNow(answers: seq<AnswerFact>, callbacks: seq<Callback>, now: nat)
    ensures var r := PolledAll(answers, callbacks, now);
            answers <= r && forall i :: |answers| <= i < |r| ==> r[i].at == now
  {
    if callbacks != [] { PolledNow(answers, callbacks[..|callbacks| - 1], now); }
  }

  lemma StepOnClock(l: Listing, s: State, e: Event, before: nat)
    requires NoneEarly(s.holds, before) && before <= TimeOf(e)
    requires e.FireAt? ==> e.fire.day == e.fire.now / 86400
    ensures NoneEarly(Next(l, s, e).holds, TimeOf(e)) && Polls(s, e, SameDay)
  {
    match e
    case FireAt(f) =>
      if f.polled.Some? { PolledNow(s.answers, f.polled.value, f.now); }
      FireRight(l, s, f);
      ProgressMeans(l, s, f);
      hide Fired, PlacesRight, ReleasesRight, PolledAll;
      assert Next(l, s, e) == Fired(l, s, f).state;
    case DashboardAnswer(run, answer, at) =>
  }

  lemma {:induction false} ClockThroughout(l: Listing, events: seq<Event>, n: nat)
    requires InTimeOrder(events) && OnClock(events) && n <= |events|
    ensures Sealed(At(l, events, n), SameDay)
    ensures NoneEarly(At(l, events, n).holds, if n == 0 then 0 else TimeOf(events[n - 1]))
  {
    hide At, Next, Sealed, HoldsKept, AnswersKept, TimeOf;
    if n == 0 {
      SealedAtStart(l, events, SameDay);
      NothingHeldAtStart(l, events);
    } else {
      var s, e, before := At(l, events, n - 1), events[n - 1], if n == 1 then 0 else TimeOf(events[n - 2]);
      ClockThroughout(l, events, n - 1);
      Reachable(l, events, n - 1);
      OneStep(l, events, n - 1);
      StepOnClock(l, s, e, before);
      StepKeepsSealed(l, s, e, SameDay);
    }
  }

  lemma NothingHeldAtStart(l: Listing, events: seq<Event>)
    ensures At(l, events, 0).holds == []
  {
  }

  /** The dashboard fact number `i` was accepted while an active hold of its run was unmarked. */
  lemma {:induction false} DashboardFactMeans(l: Listing, events: seq<Event>, m: nat, n: nat, i: nat) returns (q: nat)
    requires InTimeOrder(events) && m <= n <= |events|
    requires |At(l, events, m).answers| <= i < |At(l, events, n).answers| && At(l, events, n).answers[i].source == Dashboard
    ensures m <= q < n && events[q].DashboardAnswer? && events[q].at == At(l, events, n).answers[i].at
    ensures AwaitsAnswer(At(l, events, q).holds, At(l, events, n).answers[i].run)
  {
    hide At, AwaitsAnswer, InTimeOrder, Next;
    AnswersGrow(l, events, n - 1, n);
    if i < |At(l, events, n - 1).answers| {
      q := DashboardFactMeans(l, events, m, n - 1, i);
    } else {
      q := n - 1;
      OneStep(l, events, q);
      DashboardStep(l, At(l, events, q), events[q], i);
    }
  }

  lemma DashboardStep(l: Listing, s: State, e: Event, i: nat)
    requires |s.answers| <= i < |Next(l, s, e).answers| && Next(l, s, e).answers[i].source == Dashboard
    ensures e.DashboardAnswer? && e.at == Next(l, s, e).answers[i].at
    ensures AwaitsAnswer(s.holds, Next(l, s, e).answers[i].run)
  {
    match e
    case FireAt(f) =>
      FiredAnswers(l, s, f);
      if f.polled.Some? { PolledAreTelegram(s.answers, f.polled.value, f.now); }
      hide Fired, PolledAll;
    case DashboardAnswer(run, answer, at) =>
  }

  /** Up to and through a fire of its day no answer of a run is displaced. */
  lemma OnClockNotDisplaced(l: Listing, events: seq<Event>, m: nat, k: nat, run: RunId)
    requires InTimeOrder(events) && OnClock(events) && m <= k < |events|
    requires events[k].FireAt? && run == Scheduled(events[k].fire.day)
    ensures !Displaced(l, At(l, events, m).answers, At(l, events, k + 1).answers, run)
  {
    hide At, InTimeOrder, Sealed, Next;
    var before, after := At(l, events, m).answers, At(l, events, k + 1).answers;
    if Displaced(l, before, after, run) {
      var e := Earliest(l, before, run).value;
      var i :| |before| <= i < |after| && after[i].run == run && after[i].source == Dashboard && after[i].at == e.at;
      var q := DashboardFactMeans(l, events, m, k + 1, i);
      ClockThroughout(l, events, q);
      TimeBefore(events, q, k);
      HeldOnItsDay(At(l, events, q), if q == 0 then 0 else TimeOf(events[q - 1]), events[q].at, events[k].fire);
      AnswersGrow(l, events, m, q);
      NoneSooner(l, before, run);
      var j :| 0 <= j < |before| && before[j] == e;
      SealedRefuses(At(l, events, q), j, run);
    }
  }

  lemma HeldOnItsDay(s: State, before: nat, at: nat, f: Fire)
    requires NoneEarly(s.holds, before) && before <= at <= f.now && f.day == f.now / 86400
    requires AwaitsAnswer(s.holds, Scheduled(f.day))
    ensures f.day == at / 86400
  {
  }

  lemma TimeBefore(events: seq<Event>, q: nat, k: nat)
    requires InTimeOrder(events) && q < k < |events|
    ensures (if q == 0 then 0 else TimeOf(events[q - 1])) <= TimeOf(events[q]) <= TimeOf(events[k])
  {
  }

  lemma SealedRefuses(s: State, j: nat, run: RunId)
    requires Sealed(s, SameDay) && j < |s.answers| && SameDay(s.answers[j])
    requires s.answers[j].source == Telegram && s.answers[j].run == run
    ensures !AwaitsAnswer(s.holds, run)
  {
  }

  /** When every fire acts for the date of its clock, an effective `skip_today` before placement means
      the run is never placed, whichever way facts are listed. */
  lemma SkipMeansNeverOnClock(l: Listing, events: seq<Event>, m: nat, n: nat, run: RunId)
    requires InTimeOrder(events) && OnClock(events) && m <= n <= |events|
    requires Effective(l, At(l, events, m).answers, run) == Some(SkipToday) && run !in At(l, events, m).runs
    ensures run !in At(l, events, n).runs
  {
    hide At, IsActionTime, Earliest, OnClock, InTimeOrder, Displaced;
    if run in At(l, events, n).runs {
      var k := PlacedOnce(l, events, n, run);
      if m <= k {
        OnClockNotDisplaced(l, events, m, k, run);
        SkipMeansNever(l, events, m, k + 1, run);
      }
    }
  }
}
