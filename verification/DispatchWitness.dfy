/** Concrete histories of the dispatcher: a hold released with its run left unplaced, and a skipped run
    placed after all because facts are listed by key. Times are seconds since the epoch. */
module DispatchWitness {
  import opened Options
  import opened Dispatch
  import opened DispatchSafety
  import opened AnswerFinality

  /** A fire of an open trading day at a fleet that is failing. */
  function FailingFire(day: int, now: nat, universe: seq<string>, polled: Option<seq<Callback>>): Fire {
    Fire(day, now, Session, Readiness(Failing, []), universe, polled, None)
  }

  function HeldAt(day: int, now: nat): Hold { Hold(Scheduled(day), 0, now, [], None, None, None) }

  const OPENING := 22 * 3600 + 30 * 60
  const DAY := 86400

  lemma InWindow(now: nat)
    requires OPENING <= now % DAY < OPENING + 3000
    ensures IsActionTime(now)
  {
    ActionTimeIsWindow(now);
  }

  lemma OneActive(h: Hold, run: RunId)
    ensures ActiveHold([], run) == None && CountHolds([], run) == 0
    ensures ActiveHold([h], run) == if ActiveFor(h, run) then Some(0) else None
    ensures CountHolds([h], run) == if h.run == run then 1 else 0
  {
    assert [h][..0] == [];
  }

  lemma TwoActive(h: Hold, g: Hold, run: RunId)
    ensures ActiveHold([h, g], run)
         == if ActiveFor(h, run) then Some(0) else if ActiveFor(g, run) then Some(1) else None
  {
    assert [h, g][..1] == [h];
    OneActive(h, run);
  }

  /** A fire at a failing fleet without an answer holds its run, or keeps the hold in force. */
  lemma FailingFireHolds(l: Listing, s: State, f: Fire)
    requires f.calendar == Session && f.readiness == Readiness(Failing, []) && f.polled.None? && f.sent.None?
    requires IsActionTime(f.now) && Effective(l, s.answers, Scheduled(f.day)).None? && Scheduled(f.day) !in s.runs
    requires ActiveHold(s.holds, Scheduled(f.day)).None? && CountHolds(s.holds, Scheduled(f.day)) == 0
    ensures Fired(l, s, f).state == s.(holds := s.holds + [HeldAt(f.day, f.now)])
  {
    hide IsActionTime, Earliest, ActiveHold, CountHolds;
  }

  // ----- a release that leaves the run unplaced ------------------------------------------------

  function ReleasingHistory(): seq<Event> {
    [FireAt(FailingFire(0, OPENING, [], None)),
     FireAt(Fire(0, OPENING + 600, Session, Readiness(Ready, []), [], None, None))]
  }

  /** The fleet recovers while no universe can be read: the hold is gone and the run is not placed. */
  lemma ReleasedButNotPlaced(l: Listing)
    ensures var events, run := ReleasingHistory(), Scheduled(0);
            && InTimeOrder(events)
            && At(l, events, 1).holds == [HeldAt(0, OPENING)]
            && At(l, events, 2).holds == [HeldAt(0, OPENING).(released := Some(OPENING + 600))]
            && run !in At(l, events, 2).runs
  {
    var events, empty, held := ReleasingHistory(), State([], [], map[]), State([HeldAt(0, OPENING)], [], map[]);
    InWindow(OPENING);
    InWindow(OPENING + 600);
    OneActive(HeldAt(0, OPENING), Scheduled(0));
    hide IsActionTime, Fired;
    FailingFireHolds(l, empty, events[0].fire);
    assert At(l, events, 0) == empty && At(l, events, 1) == held;
    ReadyFireReleases(l, held, events[1].fire);
    assert At(l, events, 2) == Fired(l, held, events[1].fire).state;
  }

  /** A fire at a fleet that may run, with no universe, releases the hold in force and places nothing. */
  lemma ReadyFireReleases(l: Listing, s: State, f: Fire)
    requires f.calendar == Session && f.readiness.state == Ready && f.universe == [] && f.polled.None?
    requires IsActionTime(f.now) && s.answers == [] && Scheduled(f.day) !in s.runs
    requires |s.holds| == 1 && ActiveHold(s.holds, Scheduled(f.day)) == Some(0)
    ensures Fired(l, s, f).state == s.(holds := [s.holds[0].(released := Some(f.now))])
  {
    hide IsActionTime, ActiveHold;
    assert Answered(l, s, f) == s;
  }

  // ----- a skipped run placed ------------------------------------------------------------------

  /** Two days are held; the fire of the second records `skip_today` for the first from Telegram; the
      dashboard, in the same second, records `run_now` for it; a fire whose date is overridden to the
      first day follows. */
  function DisplacingHistory(): seq<Event> {
    [FireAt(FailingFire(1, OPENING, [], None)),
     FireAt(FailingFire(2, OPENING + DAY, [], None)),
     FireAt(FailingFire(2, OPENING + DAY + 600, [], Some([Callback(Scheduled(1), SkipToday, 7)]))),
     DashboardAnswer(Scheduled(1), RunNow, OPENING + DAY + 600),
     FireAt(FailingFire(1, OPENING + DAY + 1200, ["AAPL"], None))]
  }

  const SKIP := AnswerFact(Scheduled(1), Telegram, 1, SkipToday, 22 * 3600 + 30 * 60 + 86400 + 600, 7)
  const RUN := AnswerFact(Scheduled(1), Dashboard, 1, RunNow, 22 * 3600 + 30 * 60 + 86400 + 600, 0)

  function BothHeld(): seq<Hold> { [HeldAt(1, OPENING), HeldAt(2, OPENING + DAY)] }

  lemma OneFact(l: Listing, a: AnswerFact, run: RunId)
    ensures Earliest(l, [a], run) == if a.run == run then Some(a) else None
  {
    assert [a][..0] == [];
  }

  lemma TwoFacts(l: Listing)
    ensures Earliest(l, [SKIP, RUN], Scheduled(1)) == Some(if l.ByKey? then RUN else SKIP)
  {
    assert [SKIP, RUN][..1] == [SKIP];
    OneFact(l, SKIP, Scheduled(1));
    KeyOrder(RUN, SKIP);
  }

  lemma BothDaysHeld(l: Listing)
    ensures At(l, DisplacingHistory(), 2) == State(BothHeld(), [], map[])
  {
    var events, empty := DisplacingHistory(), State([], [], map[]);
    var one := State([HeldAt(1, OPENING)], [], map[]);
    InWindow(OPENING);
    InWindow(OPENING + DAY);
    OneActive(HeldAt(1, OPENING), Scheduled(1));
    OneActive(HeldAt(1, OPENING), Scheduled(2));
    hide IsActionTime;
    FailingFireHolds(l, empty, events[0].fire);
    assert At(l, events, 0) == empty && At(l, events, 1) == one;
    FailingFireHolds(l, one, events[1].fire);
  }

  lemma SkipRecorded(l: Listing)
    ensures At(l, DisplacingHistory(), 3) == State(BothHeld(), [SKIP], map[])
  {
    ThirdFire();
    InWindow(OPENING + DAY + 600);
    TwoActive(HeldAt(1, OPENING), HeldAt(2, OPENING + DAY), Scheduled(2));
    hide At, Next, IsActionTime, ActiveHold, DisplacingHistory, FailingFire;
    BothDaysHeld(l);
    OneStep(l, DisplacingHistory(), 2);
    SkipRead(l, State(BothHeld(), [], map[]), DisplacingHistory()[2].fire);
  }

  lemma ThirdFire()
    ensures |DisplacingHistory()| == 5
    ensures DisplacingHistory()[2]
         == FireAt(FailingFire(2, OPENING + DAY + 600, [], Some([Callback(Scheduled(1), SkipToday, 7)])))
    ensures DisplacingHistory()[2].fire.now == OPENING + DAY + 600
  {
  }

  /** The fire that reads the button of the day before: its own run has no answer and keeps its hold. */
  lemma SkipRead(l: Listing, s: State, f: Fire)
    requires s == State(BothHeld(), [], map[]) && ActiveHold(s.holds, Scheduled(2)) == Some(1) && IsActionTime(f.now)
    requires f == FailingFire(2, OPENING + DAY + 600, [], Some([Callback(Scheduled(1), SkipToday, 7)]))
    ensures Next(l, s, FireAt(f)) == State(BothHeld(), [SKIP], map[])
  {
    OneFact(l, SKIP, Scheduled(2));
    assert f.polled.value[..0] == [];
    assert PolledAll([], f.polled.value, f.now) == [SKIP];
    hide IsActionTime, ActiveHold, CountHolds, PolledAll, Earliest;
    assert Answered(l, s, f) == State(BothHeld(), [SKIP], map[]);
  }

  lemma RunNowRecorded(l: Listing)
    ensures At(l, DisplacingHistory(), 4) == State(BothHeld(), [SKIP, RUN], map[])
  {
    var events, s := DisplacingHistory(), State(BothHeld(), [SKIP], map[]);
    SkipRecorded(l);
    assert ActiveFor(s.holds[0], Scheduled(1)) && s.holds[0].answered.None?;
    assert [SKIP][..0] == [];
    assert CountAnswers([SKIP], Scheduled(1), Dashboard) == 0;
    OneStep(l, events, 3);
  }

  /** Under key order a run skipped by the third event is placed by the fifth; under
      insertion order it never is. */
  lemma SkippedRunIsPlaced()
    ensures var events, run := DisplacingHistory(), Scheduled(1);
            && InTimeOrder(events)
            && Effective(ByKey, At(ByKey, events, 3).answers, run) == Some(SkipToday) && run !in At(ByKey, events, 3).runs
            && Effective(ByKey, At(ByKey, events, 4).answers, run) == Some(RunNow)
            && run in At(ByKey, events, 5).runs
            && run !in At(ByInsertion, events, 5).runs
  {
    TimesInOrder();
    SkipIsEffective(ByKey);
    SkipIsEffective(ByInsertion);
    RunNowIsEffective();
    LastFirePlaces();
    SkipHoldsByInsertion();
  }

  lemma TimesInOrder()
    ensures InTimeOrder(DisplacingHistory())
  {
  }

  lemma SkipIsEffective(l: Listing)
    ensures var s := At(l, DisplacingHistory(), 3);
            Effective(l, s.answers, Scheduled(1)) == Some(SkipToday) && Scheduled(1) !in s.runs
  {
    SkipRecorded(l);
    OneFact(l, SKIP, Scheduled(1));
    hide At, Earliest;
  }

  lemma RunNowIsEffective()
    ensures Effective(ByKey, At(ByKey, DisplacingHistory(), 4).answers, Scheduled(1)) == Some(RunNow)
  {
    RunNowRecorded(ByKey);
    TwoFacts(ByKey);
    hide At, Earliest;
  }

  lemma SkipHoldsByInsertion()
    ensures Scheduled(1) !in At(ByInsertion, DisplacingHistory(), 5).runs
  {
    TimesInOrder();
    SkipIsEffective(ByInsertion);
    hide At, Earliest, Effective, InTimeOrder;
    SkipMeansNever(ByInsertion, DisplacingHistory(), 3, 5, Scheduled(1));
  }

  lemma LastFirePlaces()
    ensures Scheduled(1) in At(ByKey, DisplacingHistory(), 5).runs
  {
    var f := FailingFire(1, OPENING + DAY + 1200, ["AAPL"], None);
    LastEvent(f);
    RunNowRecorded(ByKey);
    OneStep(ByKey, DisplacingHistory(), 4);
    hide At, DisplacingHistory;
    LastFire(State(BothHeld(), [SKIP, RUN], map[]), f);
  }

  lemma LastEvent(f: Fire)
    requires f == FailingFire(1, OPENING + DAY + 1200, ["AAPL"], None)
    ensures |DisplacingHistory()| == 5 && DisplacingHistory()[4] == FireAt(f)
  {
  }

  lemma LastFire(s: State, f: Fire)
    requires s == State(BothHeld(), [SKIP, RUN], map[]) && f == FailingFire(1, OPENING + DAY + 1200, ["AAPL"], None)
    ensures Scheduled(1) in Fired(ByKey, s, f).state.runs
  {
    InWindow(f.now);
    SeesRunNow(s, f);
    hide IsActionTime, Effective, Answered, Fired;
    RunNowPlaces(ByKey, s, f);
  }

  lemma SeesRunNow(s: State, f: Fire)
    requires s == State(BothHeld(), [SKIP, RUN], map[]) && f.day == 1 && f.polled.None?
    ensures Effective(ByKey, Answered(ByKey, s, f).answers, Scheduled(1)) == Some(RunNow)
  {
    TwoFacts(ByKey);
    hide ActiveHold, Earliest, Marked;
  }

  /** A fire in the window that sees `run_now` and a universe places its run. */
  lemma RunNowPlaces(l: Listing, s: State, f: Fire)
    requires f.calendar == Session && IsActionTime(f.now) && f.universe != [] && Scheduled(f.day) !in s.runs
    requires Effective(l, Answered(l, s, f).answers, Scheduled(f.day)) == Some(RunNow)
    ensures Scheduled(f.day) in Fired(l, s, f).state.runs
  {
    hide IsActionTime, Effective, ActiveHold;
  }
}
