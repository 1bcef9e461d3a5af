/** One fire of the answer-aware scheduled dispatcher, step by step over its graph facts
    (`orchestration/scheduled_dispatch_human.py`, `_gate.py`, `_actions.py`, `scheduled_dispatch.py`,
    `hold_answers.py`, `_polling.py`). Readiness, the calendar, the universe and every Telegram
    call are arbitrary inputs of a fire. Times are UTC seconds, the precision the facts record. */
module Dispatch {
  import opened Options
  import opened CreatedAt
  import opened Probing

  datatype RunId = Scheduled(day: int) | Other(name: string)

  datatype Answer = RunNow | SkipToday

  datatype Source = Telegram | Dashboard

  /** A RunHold node, keyed by its run and the number of that run's earlier holds. */
  datatype Hold = Hold(
    run: RunId, ordinal: nat, heldAt: nat, failures: seq<string>,
    released: Option<nat>, notified: Option<nat>, answered: Option<Answer>)

  /** A RunHoldAnswer node, keyed by run, source and ordinal. */
  datatype AnswerFact = AnswerFact(run: RunId, source: Source, ordinal: nat, answer: Answer, at: nat, updateId: int)

  datatype RunRequest = RunRequest(tickers: seq<string>, degradedBy: Option<seq<string>>, degradedNotified: Option<nat>)

  datatype State = State(holds: seq<Hold>, answers: seq<AnswerFact>, runs: map<RunId, RunRequest>)

  datatype ReadyState = Ready | Degraded | Failing | Unknown

  datatype Readiness = Readiness(state: ReadyState, failures: seq<string>)

  datatype Calendar = Session | Closed | BeyondWindow

  datatype Callback = Callback(run: RunId, answer: Answer, updateId: int)

  /** Everything one fire meets. `polled` is None when the poll fails; `sent` is the message id of
      the one notice a fire may send, or None when sending fails. */
  datatype Fire = Fire(
    day: int, now: nat, calendar: Calendar, readiness: Readiness, universe: seq<string>,
    polled: Option<seq<Callback>>, sent: Option<int>)

  datatype Notice = HoldNotice(run: RunId, ordinal: nat) | DegradedNotice(run: RunId)

  datatype Outcome = Placed | AlreadyPlaced | Held | Skipped | CalendarExceeded | EmptyUniverse

  /** A fire's effect: the facts it leaves, what it returns or raises, the notice that went out. */
  datatype Effect = Effect(state: State, outcome: Outcome, notice: Option<Notice>)

  // ----- the placing window --------------------------------------------------------------------

  /** Minute of day of the ten-minute cron tick a fire belongs to. */
  function FireTick(now: nat): nat {
    var hour, minute := now % 86400 / 3600, now % 3600 / 60;
    hour * 60 + (minute - minute % 10)
  }

  const ACTION_START := 22 * 60 + 30
  const ACT_BY := 23 * 60 + 10

  predicate IsActionTime(now: nat) { ACTION_START <= FireTick(now) <= ACT_BY }

  /** The window in clock time: 22:30:00 up to, not including, 23:20:00. */
  lemma ActionTimeIsWindow(now: nat)
    ensures IsActionTime(now) <==> 22 * 3600 + 30 * 60 <= now % 86400 < 23 * 3600 + 20 * 60
  {
    MinuteOfDay(now);
    TickOfMinute(now % 86400 / 60);
  }

  lemma DividedBy10(n: nat, k: nat, r: nat)
    requires n == k * 10 + r && r < 10
    ensures n / 10 == k && n % 10 == r
  {
  }

  lemma DividedBy60(n: nat, k: nat, r: nat)
    requires n == k * 60 + r && r < 60
    ensures n / 60 == k && n % 60 == r
  {
  }

  lemma DividedBy3600(n: nat, k: nat, r: nat)
    requires n == k * 3600 + r && r < 3600
    ensures n / 3600 == k && n % 3600 == r
  {
  }

  /** A tick is the minute of day rounded down to ten. */
  lemma MinuteOfDay(now: nat)
    ensures var minute := now % 86400 / 60; FireTick(now) == minute - minute % 10
  {
    var s := now % 86400;
    var hour, rest := s / 3600, s % 3600;
    var minute, second := rest / 60, rest % 60;
    var ten, one := minute / 10, minute % 10;
    hide *;
    DividedBy3600(now, now / 86400 * 24 + hour, rest);
    DividedBy60(s, hour * 60 + minute, second);
    DividedBy10(hour * 60 + minute, hour * 6 + ten, one);
    TickParts(now, hour, minute);
  }

  lemma TickParts(now: nat, hour: nat, minute: nat)
    requires hour == now % 86400 / 3600 && minute == now % 3600 / 60
    ensures FireTick(now) == hour * 60 + (minute - minute % 10)
  {
  }

  lemma TickOfMinute(minute: nat)
    ensures ACTION_START <= minute - minute % 10 <= ACT_BY <==> 1350 <= minute < 1400
  {
  }

  // ----- holds ---------------------------------------------------------------------------------

  predicate ActiveFor(h: Hold, run: RunId) { h.run == run && h.released.None? }

  /** The first active hold of a run, in list order. */
  function ActiveHold(holds: seq<Hold>, run: RunId): (r: Option<nat>)
    ensures r.Some? ==> r.value < |holds| && ActiveFor(holds[r.value], run)
    ensures r.None? ==> forall i :: 0 <= i < |holds| ==> !ActiveFor(holds[i], run)
  {
    if holds == [] then None
    else
      var earlier := ActiveHold(holds[..|holds| - 1], run);
      if earlier.Some? then earlier
      else if ActiveFor(holds[|holds| - 1], run) then Some(|holds| - 1) else None
  }

  function CountHolds(holds: seq<Hold>, run: RunId): nat {
    if holds == [] then 0
    else CountHolds(holds[..|holds| - 1], run) + if holds[|holds| - 1].run == run then 1 else 0
  }

  // ----- answers -------------------------------------------------------------------------------

  function CountAnswers(answers: seq<AnswerFact>, run: RunId, source: Source): nat {
    if answers == [] then 0
    else CountAnswers(answers[..|answers| - 1], run, source)
         + if answers[|answers| - 1].run == run && answers[|answers| - 1].source == source then 1 else 0
  }

  predicate UpdateRecorded(answers: seq<AnswerFact>, updateId: int) {
    updateId != 0 && exists i :: 0 <= i < |answers| && answers[i].updateId == updateId
  }

  function Recorded(answers: seq<AnswerFact>, run: RunId, answer: Answer, source: Source, at: nat, updateId: int): seq<AnswerFact> {
    if UpdateRecorded(answers, updateId) then answers
    else answers + [AnswerFact(run, source, 1 + CountAnswers(answers, run, source), answer, at, updateId)]
  }

  /** How a backend lists facts: the in-memory store as they were written, PostgreSQL by key. */
  datatype Listing = ByInsertion | ByKey

  /** A fact's key after `answer:`, the run id and a colon, which facts of one run share. */
  function KeyTail(a: AnswerFact): string {
    (if a.source == Dashboard then "dashboard:" else "telegram:") + Decimal(a.ordinal)
  }

  predicate KeyBefore(a: AnswerFact, b: AnswerFact) { Less(KeyTail(a), KeyTail(b)) }

  /** Python's `min` by time: of the earliest facts, the one listed first. */
  function Earliest(l: Listing, answers: seq<AnswerFact>, run: RunId): Option<AnswerFact> {
    if answers == [] then None
    else
      var earlier, last := Earliest(l, answers[..|answers| - 1], run), answers[|answers| - 1];
      if last.run == run
         && (earlier.None? || last.at < earlier.value.at
             || (l.ByKey? && last.at == earlier.value.at && KeyBefore(last, earlier.value)))
      then Some(last) else earlier
  }

  function Effective(l: Listing, answers: seq<AnswerFact>, run: RunId): Option<Answer> {
    match Earliest(l, answers, run)
    case None => None
    case Some(a) => Some(a.answer)
  }

  function PolledAll(answers: seq<AnswerFact>, callbacks: seq<Callback>, now: nat): seq<AnswerFact> {
    if callbacks == [] then answers
    else
      var c := callbacks[|callbacks| - 1];
      Recorded(PolledAll(answers, callbacks[..|callbacks| - 1], now), c.run, c.answer, Telegram, now, c.updateId)
  }

  // ----- the steps of a fire -------------------------------------------------------------------

  /** `_mark_answer`, on the hold that was active when the fire began. */
  function Marked(holds: seq<Hold>, hold: Option<nat>, answer: Option<Answer>): (r: seq<Hold>)
    requires hold.Some? ==> hold.value < |holds|
    ensures |r| == |holds|
  {
    if hold.Some? && answer.Some? && holds[hold.value].answered.None?
    then holds[hold.value := holds[hold.value].(answered := answer)]
    else holds
  }

  /** What the fire has read and written before it looks at placement. */
  function Answered(l: Listing, s: State, f: Fire): State {
    var run := Scheduled(f.day);
    var hold := ActiveHold(s.holds, run);
    var answers := if hold.Some? && f.polled.Some? then PolledAll(s.answers, f.polled.value, f.now) else s.answers;
    State(Marked(s.holds, hold, Effective(l, answers, run)), answers, s.runs)
  }

  /** `_notify_degraded_run`. */
  function DegradedNotified(s: State, run: RunId, f: Fire, outcome: Outcome): Effect
    requires run in s.runs
  {
    if s.runs[run].degradedNotified.None? && f.sent.Some?
    then Effect(s.(runs := s.runs[run := s.runs[run].(degradedNotified := Some(f.now))]), outcome, Some(DegradedNotice(run)))
    else Effect(s, outcome, None)
  }

  /** `_notify_new_hold` for the hold at index `i`. */
  function HoldNotified(s: State, i: nat, f: Fire): Effect
    requires i < |s.holds|
  {
    if s.holds[i].notified.None? && f.sent.Some?
    then Effect(s.(holds := s.holds[i := s.holds[i].(notified := Some(f.now))]), Held,
                Some(HoldNotice(s.holds[i].run, s.holds[i].ordinal)))
    else Effect(s, Held, None)
  }

  function PlacedRun(s: State, run: RunId, tickers: seq<string>, degradedBy: Option<seq<string>>): State {
    s.(runs := s.runs[run := RunRequest(tickers, degradedBy, None)])
  }

  /** `place_override`: the active hold, if any, stays. */
  function Overridden(s: State, run: RunId, f: Fire): Effect {
    if f.universe == [] then Effect(s, EmptyUniverse, None)
    else Effect(PlacedRun(s, run, f.universe, None), Placed, None)
  }

  /** `hold_unready_run` on a fleet that may run: the active hold is released. */
  function Released(s: State, run: RunId, now: nat): State {
    match ActiveHold(s.holds, run)
    case None => s
    case Some(i) => s.(holds := s.holds[i := s.holds[i].(released := Some(now))])
  }

  /** `place_scheduled_run`, and the notice its result calls for. A hold is released before the
      universe is read, so an empty universe raises with the hold already gone. */
  function ScheduledPlacement(s: State, run: RunId, f: Fire): Effect {
    if f.readiness.state == Ready || f.readiness.state == Degraded then
      var freed := Released(s, run, f.now);
      if f.universe == [] then Effect(freed, EmptyUniverse, None)
      else if f.readiness.state == Degraded then
        DegradedNotified(PlacedRun(freed, run, f.universe, Some(f.readiness.failures)), run, f, Placed)
      else Effect(PlacedRun(freed, run, f.universe, None), Placed, None)
    else
      match ActiveHold(s.holds, run)
      case Some(i) => HoldNotified(s, i, f)
      case None =>
        var hold := Hold(run, CountHolds(s.holds, run), f.now, f.readiness.failures, None, None, None);
        HoldNotified(s.(holds := s.holds + [hold]), |s.holds|, f)
  }

  /** `dispatch_with_human_answer`. */
  function Fired(l: Listing, s: State, f: Fire): Effect {
    var run := Scheduled(f.day);
    if f.calendar == BeyondWindow then Effect(s, CalendarExceeded, None)
    else if f.calendar == Closed then Effect(s, Skipped, None)
    else
      var t := Answered(l, s, f);
      var answer := Effective(l, t.answers, run);
      if run in t.runs then
        if IsActionTime(f.now) && t.runs[run].degradedBy.Some? then DegradedNotified(t, run, f, AlreadyPlaced)
        else Effect(t, AlreadyPlaced, None)
      else if !IsActionTime(f.now) then
        Effect(t, if ActiveHold(s.holds, run).Some? then Held else Skipped, None)
      else if answer == Some(SkipToday) then Effect(t, Skipped, None)
      else if answer == Some(RunNow) then Overridden(t, run, f)
      else ScheduledPlacement(t, run, f)
  }

  // ----- the graph facts, updated in place -----------------------------------------------------

  class DispatchFacts {
    const listing: Listing
    var holds: seq<Hold>
    var answers: seq<AnswerFact>
    var runs: map<RunId, RunRequest>

    constructor (listing: Listing)
      ensures Facts() == State([], [], map[]) && this.listing == listing
    {
      this.listing := listing;
      holds, answers, runs := [], [], map[];
    }

    function Facts(): State
      reads this
    {
      State(holds, answers, runs)
    }

    method RecordAnswer(run: RunId, answer: Answer, source: Source, at: nat, updateId: int) returns (written: bool)
      modifies this`answers
      ensures answers == Recorded(old(answers), run, answer, source, at, updateId)
      ensures written <==> !UpdateRecorded(old(answers), updateId)
    {
      if UpdateRecorded(answers, updateId) { return false; }
      var ordinal := 1 + CountAnswers(answers, run, source);
      answers := answers + [AnswerFact(run, source, ordinal, answer, at, updateId)];
      return true;
    }

    /** Records every callback; returns the greatest update id newly recorded, which is what the port
        then confirms up to, or 0. */
    method PollAnswers(callbacks: seq<Callback>, now: nat) returns (highest: int)
      modifies this`answers
      ensures answers == PolledAll(old(answers), callbacks, now) && old(answers) <= answers
      ensures highest >= 0 && forall i :: |old(answers)| <= i < |answers| ==> answers[i].updateId <= highest
      ensures highest > 0 ==> exists i :: |old(answers)| <= i < |answers| && answers[i].updateId == highest
    {
      highest := 0;
      for i := 0 to |callbacks|
        invariant answers == PolledAll(old(answers), callbacks[..i], now) && old(answers) <= answers
        invariant highest >= 0 && forall j :: |old(answers)| <= j < |answers| ==> answers[j].updateId <= highest
        invariant highest > 0 ==> exists j :: |old(answers)| <= j < |answers| && answers[j].updateId == highest
      {
        assert callbacks[..i + 1][..i] == callbacks[..i];
        var c := callbacks[i];
        ghost var before := answers;
        var written := RecordAnswer(c.run, c.answer, Telegram, now, c.updateId);
        if written {
          assert answers[|before|].updateId == c.updateId;
          assert forall j :: 0 <= j < |before| ==> answers[j] == before[j];
          if highest < c.updateId { highest := c.updateId; }
        }
      }
      assert callbacks[..|callbacks|] == callbacks;
    }

    /** `hold_unready_run`: None when the fleet may run, else the index of the hold in force. */
    method HoldUnreadyRun(run: RunId, now: nat, readiness: Readiness) returns (hold: Option<nat>)
      modifies this`holds
      ensures readiness.state in {Ready, Degraded} ==> hold.None? && Facts() == Released(old(Facts()), run, now)
      ensures readiness.state !in {Ready, Degraded} ==>
        && hold.Some? && hold.value < |holds| && ActiveFor(holds[hold.value], run)
        && match ActiveHold(old(holds), run)
           case Some(i) => hold.value == i && holds == old(holds)
           case None => holds == old(holds) + [Hold(run, CountHolds(old(holds), run), now, readiness.failures, None, None, None)]
                        && hold.value == |old(holds)|
    {
      var active := ActiveHold(holds, run);
      if readiness.state == Ready || readiness.state == Degraded {
        if active.Some? {
          holds := holds[active.value := holds[active.value].(released := Some(now))];
        }
        return None;
      }
      if active.Some? { return active; }
      holds := holds + [Hold(run, CountHolds(holds, run), now, readiness.failures, None, None, None)];
      return Some(|holds| - 1);
    }

    method NotifyDegradedRun(run: RunId, f: Fire) returns (notice: Option<Notice>)
      requires run in runs
      modifies this`runs
      ensures forall o :: Effect(Facts(), o, notice) == DegradedNotified(old(Facts()), run, f, o)
    {
      if runs[run].degradedNotified.Some? || f.sent.None? { return None; }
      runs := runs[run := runs[run].(degradedNotified := Some(f.now))];
      return Some(DegradedNotice(run));
    }

    method NotifyNewHold(i: nat, f: Fire) returns (notice: Option<Notice>)
      requires i < |holds|
      modifies this`holds
      ensures Effect(Facts(), Held, notice) == HoldNotified(old(Facts()), i, f)
    {
      if holds[i].notified.Some? || f.sent.None? { return None; }
      holds := holds[i := holds[i].(notified := Some(f.now))];
      return Some(HoldNotice(holds[i].run, holds[i].ordinal));
    }

    method PlaceScheduledRun(run: RunId, f: Fire) returns (outcome: Outcome, notice: Option<Notice>)
      requires run !in runs
      modifies this
      ensures Effect(Facts(), outcome, notice) == ScheduledPlacement(old(Facts()), run, f)
    {
      var hold := HoldUnreadyRun(run, f.now, f.readiness);
      if hold.Some? {
        notice := NotifyNewHold(hold.value, f);
        return Held, notice;
      }
      if f.universe == [] { return EmptyUniverse, None; }
      var degraded := f.readiness.state == Degraded;
      runs := runs[run := RunRequest(f.universe, if degraded then Some(f.readiness.failures) else None, None)];
      notice := None;
      if degraded { notice := NotifyDegradedRun(run, f); }
      return Placed, notice;
    }

    method FireOnce(f: Fire) returns (outcome: Outcome, notice: Option<Notice>)
      modifies this
      ensures Effect(Facts(), outcome, notice) == Fired(listing, old(Facts()), f)
    {
      if f.calendar == BeyondWindow { return CalendarExceeded, None; }
      if f.calendar == Closed { return Skipped, None; }
      var run := Scheduled(f.day);
      var hold := ActiveHold(holds, run);
      if hold.Some? && f.polled.Some? {
        var _ := PollAnswers(f.polled.value, f.now);
      }
      var answer := Effective(listing, answers, run);
      if answer.Some? && hold.Some? && holds[hold.value].answered.None? {
        holds := holds[hold.value := holds[hold.value].(answered := answer)];
      }
      assert Facts() == Answered(listing, old(Facts()), f);
      notice := None;
      if run in runs {
        if IsActionTime(f.now) && runs[run].degradedBy.Some? { notice := NotifyDegradedRun(run, f); }
        return AlreadyPlaced, notice;
      }
      if !IsActionTime(f.now) { return if hold.Some? then Held else Skipped, None; }
      if answer == Some(SkipToday) { return Skipped, None; }
      if answer == Some(RunNow) {
        if f.universe == [] { return EmptyUniverse, None; }
        runs := runs[run := RunRequest(f.universe, None, None)];
        return Placed, None;
      }
      outcome, notice := PlaceScheduledRun(run, f);
    }
  }
}
