/** The container sensor: overlapping reads of platform rows, recorded once and told once
    (`orchestration/container_sensor.py`, `container_sensor_graph.py`, `container_sensor_guard.py`).
    A row is given by what `classify` makes of it; the log reader and the alarm port are arbitrary.
    Times are UTC seconds. */
module ContainerSensor {
  import opened Options

  datatype Settings = Settings(firstRead: nat, overlap: nat, lookback: nat)

  /** The digest that names a platform row. */
  datatype EventKey = EventKey(digest: string)

  datatype Row = Ignored | Kept(key: EventKey, alarm: bool)

  datatype Event = Event(key: EventKey, alarm: bool, createdAt: int)

  /** A ContainerSensorRead node, keyed by `until`. */
  datatype Read = Read(until: int, start: int, ok: bool, capped: bool, truncated: bool, messageId: Option<int>)

  const EVENT_ROWS_MAX := 5000

  datatype Told = Told(read: int, event: EventKey)

  datatype State = State(events: seq<Event>, past: seq<Read>, told: seq<Told>)

  /** What one read meets: the rows, or None when a reader call raises before anything is written;
      the message id, or None when the alarm is not sent. */
  datatype Input = Input(now: int, rows: Option<seq<Row>>, sent: Option<int>)

  /** `read_window`. */
  function ReadWindow(previous: Option<int>, until: int, c: Settings): (int, bool) {
    var start := if previous.None? then until - c.firstRead else previous.value - c.overlap;
    var floor := until - c.lookback;
    if start < floor then (floor, true) else (start, false)
  }

  /** `last_read_until`: only successful reads count. */
  function LastReadUntil(past: seq<Read>): Option<int> {
    if past == [] then None
    else
      var earlier, last := LastReadUntil(past[..|past| - 1]), past[|past| - 1];
      if !last.ok then earlier
      else if earlier.Some? && earlier.value >= last.until then earlier else Some(last.until)
  }

  predicate Recorded(events: seq<Event>, key: EventKey) {
    exists i :: 0 <= i < |events| && events[i].key == key
  }

  /** `_new_events` and the merges that record them: the first row of each key not in the graph. */
  function WithRows(events: seq<Event>, rows: seq<Row>, until: int): seq<Event> {
    if rows == [] then events
    else
      var found, row := WithRows(events, rows[..|rows| - 1], until), rows[|rows| - 1];
      if row.Kept? && !Recorded(found, row.key) then found + [Event(row.key, row.alarm, until)] else found
  }

  predicate IsTold(told: seq<Told>, key: EventKey) {
    exists i :: 0 <= i < |told| && told[i].event == key
  }

  /** `untold_alarms`. */
  function Untold(events: seq<Event>, told: seq<Told>, since: int): seq<EventKey> {
    if events == [] then []
    else
      var e := events[|events| - 1];
      Untold(events[..|events| - 1], told, since)
      + if e.alarm && e.createdAt >= since && !IsTold(told, e.key) then [e.key] else []
  }

  function Edges(read: int, keys: seq<EventKey>): (r: seq<Told>)
    ensures |r| == |keys| && forall i :: 0 <= i < |keys| ==> r[i] == Told(read, keys[i])
  {
    if keys == [] then [] else Edges(read, keys[..|keys| - 1]) + [Told(read, keys[|keys| - 1])]
  }

  predicate HasRead(past: seq<Read>, until: int) {
    exists i :: 0 <= i < |past| && past[i].until == until
  }

  /** A merge of a read node: a second read of the same instant must agree with the first. */
  function MergedRead(past: seq<Read>, r: Read): Option<seq<Read>> {
    if !HasRead(past, r.until) then Some(past + [r]) else if r in past then Some(past) else None
  }

  /** `_record_failed_read`; a refused merge is swallowed. */
  function FailedRead(s: State, until: int): State {
    match MergedRead(s.past, Read(until, 0, false, false, false, None))
    case None => s
    case Some(past) => s.(past := past)
  }

  /** `sense_safely`. */
  function Sensed(s: State, input: Input, c: Settings): State {
    match input.rows
    case None => FailedRead(s, input.now)
    case Some(rows) =>
      var (start, capped) := ReadWindow(LastReadUntil(s.past), input.now, c);
      var events := WithRows(s.events, rows, input.now);
      var untold := Untold(events, s.told, input.now - c.lookback);
      var sent := if untold == [] then None else input.sent;
      match MergedRead(s.past, Read(input.now, start, true, capped, |rows| >= EVENT_ROWS_MAX, sent))
      case None => FailedRead(s.(events := events), input.now)
      case Some(past) => State(events, past, s.told + if sent.Some? then Edges(input.now, untold) else [])
  }

  class Sensor {
    const settings: Settings
    var events: seq<Event>
    var past: seq<Read>
    var told: seq<Told>

    constructor (settings: Settings)
      ensures Value() == State([], [], []) && this.settings == settings
    {
      this.settings := settings;
      events, past, told := [], [], [];
    }

    function Value(): State
      reads this
    {
      State(events, past, told)
    }

    method RecordNew(rows: seq<Row>, until: int)
      modifies this`events
      ensures events == WithRows(old(events), rows, until)
    {
      for i := 0 to |rows|
        invariant events == WithRows(old(events), rows[..i], until)
      {
        assert rows[..i + 1][..i] == rows[..i];
        if rows[i].Kept? && !Recorded(events, rows[i].key) {
          events := events + [Event(rows[i].key, rows[i].alarm, until)];
        }
      }
      assert rows[..|rows|] == rows;
    }

    method RecordFailedRead(until: int)
      modifies this`past
      ensures Value() == FailedRead(old(Value()), until)
    {
      var failed := Read(until, 0, false, false, false, None);
      if !HasRead(past, until) { past := past + [failed]; }
    }

    method SenseSafely(input: Input)
      modifies this
      ensures Value() == Sensed(old(Value()), input, settings)
    {
      hide WithRows, Untold, ReadWindow, LastReadUntil, Edges;
      if input.rows.None? { RecordFailedRead(input.now); return; }
      var (start, capped) := ReadWindow(LastReadUntil(past), input.now, settings);
      RecordNew(input.rows.value, input.now);
      var untold := Untold(events, told, input.now - settings.lookback);
      var sent := if untold == [] then None else input.sent;
      var read := Read(input.now, start, true, capped, |input.rows.value| >= EVENT_ROWS_MAX, sent);
      if HasRead(past, read.until) {
        if read !in past { RecordFailedRead(input.now); return; }
      } else {
        past := past + [read];
      }
      if sent.Some? { AddTold(input.now, untold); }
    }

    method AddTold(read: int, keys: seq<EventKey>)
      modifies this`told
      ensures told == old(told) + Edges(read, keys)
    {
      for i := 0 to |keys|
        invariant told == old(told) + Edges(read, keys[..i])
      {
        assert keys[..i + 1][..i] == keys[..i];
        told := told + [Told(read, keys[i])];
      }
      assert keys[..|keys|] == keys;
    }
  }

  // ----- over any sequence of reads ------------------------------------------------------------

  function At(inputs: seq<Input>, c: Settings, n: nat): State
    requires n <= |inputs|
  {
    if n == 0 then State([], [], []) else Sensed(At(inputs, c, n - 1), inputs[n - 1], c)
  }

  ghost predicate Increasing(inputs: seq<Input>) {
    forall i, j :: 0 <= i < j < |inputs| ==> inputs[i].now < inputs[j].now
  }

  ghost predicate EventsDistinct(events: seq<Event>) {
    forall i, j :: 0 <= i < j < |events| ==> events[i].key != events[j].key
  }

  ghost predicate ToldOnce(told: seq<Told>) {
    forall i, j :: 0 <= i < j < |told| ==> told[i].event != told[j].event
  }

  ghost predicate ReadsBefore(past: seq<Read>, now: int) {
    && (forall i, j :: 0 <= i < j < |past| ==> past[i].until < past[j].until)
    && (forall i :: 0 <= i < |past| ==> past[i].until < now)
  }

  lemma {:induction false} WithRowsKeeps(events: seq<Event>, rows: seq<Row>, until: int)
    requires EventsDistinct(events)
    ensures var r := WithRows(events, rows, until);
            && EventsDistinct(r) && events <= r
            && (forall i :: 0 <= i < |rows| && rows[i].Kept? ==> Recorded(r, rows[i].key))
            && (forall i :: |events| <= i < |r| ==> r[i].createdAt == until)
  {
    if rows != [] {
      WithRowsKeeps(events, rows[..|rows| - 1], until);
      var found, r := WithRows(events, rows[..|rows| - 1], until), WithRows(events, rows, until);
      forall i | 0 <= i < |rows| && rows[i].Kept? ensures Recorded(r, rows[i].key) {
        if i < |rows| - 1 { assert rows[..|rows| - 1][i] == rows[i]; }
        if Recorded(found, rows[i].key) {
          var k :| 0 <= k < |found| && found[k].key == rows[i].key;
          assert r[k] == found[k];
        } else {
          assert r[|r| - 1].key == rows[i].key;
        }
      }
    }
  }

  // ----- the window and the read node ----------------------------------------------------------

  /** Where a read would start but for the look-back: an overlap before the end of the latest successful
      read, or, before there is one, the first read's length before now. */
  ghost predicate Wanted(past: seq<Read>, now: int, c: Settings, start: int) {
    || ((forall r :: r in past ==> !r.ok) && start == now - c.firstRead)
    || exists r :: r in past && r.ok && start == r.until - c.overlap && forall q :: q in past && q.ok ==> q.until <= r.until
  }

  lemma {:induction false} LatestIs(past: seq<Read>)
    ensures LastReadUntil(past).None? <==> forall r :: r in past ==> !r.ok
    ensures LastReadUntil(past).Some? ==>
      (exists r :: r in past && r.ok && r.until == LastReadUntil(past).value)
      && forall q :: q in past && q.ok ==> q.until <= LastReadUntil(past).value
  {
    if past != [] {
      var most := past[..|past| - 1];
      LatestIs(most);
      assert past == most + [past[|past| - 1]];
    }
  }

  /** A read's window starts where it wants to, unless the look-back cuts it, and is flagged exactly then. */
  lemma WindowExactly(past: seq<Read>, now: int, c: Settings, start: int)
    requires Wanted(past, now, c, start)
    ensures var cut := start < now - c.lookback;
            ReadWindow(LastReadUntil(past), now, c) == (if cut then now - c.lookback else start, cut)
  {
    LatestIs(past);
  }

  /** What one read leaves of its instant: one read node, written by the first read of that instant, with
      this window and these flags; alarms are told only under a node that carries the message. Events are
      recorded whatever becomes of the node. */
  lemma OneReadPerInstant(s: State, input: Input, c: Settings, start: int)
    requires Wanted(s.past, input.now, c, start)
    ensures var t, first := Sensed(s, input, c), forall r :: r in s.past ==> r.until != input.now;
            && (!first ==> t.past == s.past)
            && (first ==>
                  |t.past| == |s.past| + 1 && s.past <= t.past
                  && var r := t.past[|s.past|];
                     && r.until == input.now && (r.ok <==> input.rows.Some?)
                     && (input.rows.Some? ==>
                           && r.start == (if start < input.now - c.lookback then input.now - c.lookback else start)
                           && (r.capped <==> start < input.now - c.lookback)
                           && (r.truncated <==> |input.rows.value| >= 5000)))
            && (t.told != s.told ==>
                  input.sent.Some? && exists r :: r in t.past && r.until == input.now && r.ok && r.messageId == input.sent)
            && t.events == if input.rows.Some? then WithRows(s.events, input.rows.value, input.now) else s.events
  {
    WindowExactly(s.past, input.now, c, start);
    hide WithRows, Untold, ReadWindow, LastReadUntil, Wanted, Edges;
    assert HasRead(s.past, input.now) <==> !(forall r :: r in s.past ==> r.until != input.now);
    ToldUnderMessage(s, input, c);
  }

  lemma ToldUnderMessage(s: State, input: Input, c: Settings)
    ensures var t := Sensed(s, input, c);
            t.told != s.told ==>
              input.sent.Some? && exists r :: r in t.past && r.until == input.now && r.ok && r.messageId == input.sent
  {
    hide WithRows, Untold, ReadWindow, LastReadUntil, Edges, HasRead;
    if input.rows.Some? {
      var untold := Untold(WithRows(s.events, input.rows.value, input.now), s.told, input.now - c.lookback);
      var (from, capped) := ReadWindow(LastReadUntil(s.past), input.now, c);
      var sent := if untold == [] then None else input.sent;
      var r := Read(input.now, from, true, capped, |input.rows.value| >= EVENT_ROWS_MAX, sent);
      assert MergedRead(s.past, r).Some? ==> r in MergedRead(s.past, r).value;
      assert s.told + [] == s.told;
    }
  }

  ghost predicate KeysDistinct(keys: seq<EventKey>) {
    forall i, j :: 0 <= i < j < |keys| ==> keys[i] != keys[j]
  }

  lemma {:induction false} UntoldIs(events: seq<Event>, told: seq<Told>, since: int)
    requires EventsDistinct(events)
    ensures var u := Untold(events, told, since);
            && KeysDistinct(u)
            && (forall i :: 0 <= i < |u| ==> !IsTold(told, u[i]) && Recorded(events, u[i]))
            && (forall i :: 0 <= i < |events| && events[i].alarm && events[i].createdAt >= since ==>
                  IsTold(told, events[i].key) || events[i].key in u)
  {
    if events != [] {
      var most, u := events[..|events| - 1], Untold(events, told, since);
      UntoldIs(most, told, since);
      var v := Untold(most, told, since);
      forall i | 0 <= i < |v| ensures Recorded(events, v[i]) && v[i] != events[|events| - 1].key {
        assert Recorded(most, v[i]);
        var k :| 0 <= k < |most| && most[k].key == v[i];
        assert events[k] == most[k];
      }
      forall i | 0 <= i < |events| && events[i].alarm && events[i].createdAt >= since
        ensures IsTold(told, events[i].key) || events[i].key in u
      {
        if i < |most| { assert most[i] == events[i]; }
      }
    }
  }

  lemma {:induction false} LastReadIs(past: seq<Read>)
    ensures LastReadUntil(past).Some? ==>
      exists i :: 0 <= i < |past| && past[i].ok && past[i].until == LastReadUntil(past).value
    ensures forall i :: 0 <= i < |past| && past[i].ok ==>
      LastReadUntil(past).Some? && past[i].until <= LastReadUntil(past).value
  {
    if past != [] {
      LastReadIs(past[..|past| - 1]);
      var e := LastReadUntil(past[..|past| - 1]);
      if e.Some? {
        var i :| 0 <= i < |past| - 1 && past[..|past| - 1][i].ok && past[..|past| - 1][i].until == e.value;
        assert past[i].until == e.value;
      }
      forall i | 0 <= i < |past| - 1 ensures past[i] == past[..|past| - 1][i] {}
    }
  }

  /** Every successful read covers the window computed from the successful reads before it. */
  ghost predicate Linked(past: seq<Read>, c: Settings) {
    forall i :: 0 <= i < |past| && past[i].ok ==>
      (past[i].start, past[i].capped) == ReadWindow(LastReadUntil(past[..i]), past[i].until, c)
  }

  ghost predicate SensorKept(s: State, now: int, c: Settings) {
    && EventsDistinct(s.events) && ToldOnce(s.told) && ReadsBefore(s.past, now) && Linked(s.past, c)
    && (forall i :: 0 <= i < |s.told| ==> Recorded(s.events, s.told[i].event))
  }

  lemma ReadAdded(past: seq<Read>, r: Read, c: Settings, later: int)
    requires ReadsBefore(past, r.until) && Linked(past, c) && r.until < later
    requires r.ok ==> (r.start, r.capped) == ReadWindow(LastReadUntil(past), r.until, c)
    ensures MergedRead(past, r) == Some(past + [r]) && Linked(past + [r], c) && ReadsBefore(past + [r], later)
  {
    var more := past + [r];
    forall i | 0 <= i < |more| ensures more[..i] == past[..i] {}
    assert past[..|past|] == past;
  }

  lemma ToldAdded(told: seq<Told>, read: int, keys: seq<EventKey>)
    requires ToldOnce(told) && KeysDistinct(keys)
    requires forall i :: 0 <= i < |keys| ==> !IsTold(told, keys[i])
    ensures ToldOnce(told + Edges(read, keys))
    ensures forall i :: 0 <= i < |keys| ==> IsTold(told + Edges(read, keys), keys[i])
    ensures forall key :: IsTold(told, key) ==> IsTold(told + Edges(read, keys), key)
  {
    var more := told + Edges(read, keys);
    assert forall i :: 0 <= i < |keys| ==> more[|told| + i].event == keys[i];
    assert forall i :: 0 <= i < |told| ==> more[i] == told[i];
    forall i | 0 <= i < |told| ensures IsTold(told, told[i].event) {}
  }

  lemma StepKeeps(s: State, input: Input, c: Settings, later: int)
    requires SensorKept(s, input.now, c) && input.now < later
    ensures SensorKept(Sensed(s, input, c), later, c)
    ensures s.events <= Sensed(s, input, c).events
  {
    hide EventsDistinct, ToldOnce, ReadsBefore, Linked, ReadWindow, IsTold, LastReadUntil, MergedRead, KeysDistinct;
    match input.rows
    case None => ReadAdded(s.past, Read(input.now, 0, false, false, false, None), c, later);
    case Some(rows) =>
      hide Recorded, WithRows, Untold;
      ReadKeeps(s, input, c, later);
  }

  /** The parts of a successful read. */
  lemma ReadKeeps(s: State, input: Input, c: Settings, later: int)
    requires SensorKept(s, input.now, c) && input.now < later && input.rows.Some?
    ensures SensorKept(Sensed(s, input, c), later, c)
    ensures var t := Sensed(s, input, c);
            var untold := Untold(t.events, s.told, input.now - c.lookback);
            && t.events == WithRows(s.events, input.rows.value, input.now) && s.events <= t.events
            && t.told == s.told + (if input.sent.Some? then Edges(input.now, untold) else [])
            && (forall key :: IsTold(s.told, key) ==> IsTold(s.told + Edges(input.now, untold), key))
            && (forall i :: 0 <= i < |untold| ==> IsTold(s.told + Edges(input.now, untold), untold[i]))
            && (forall i :: 0 <= i < |t.events| && t.events[i].alarm && t.events[i].createdAt >= input.now - c.lookback ==>
                  IsTold(s.told, t.events[i].key) || t.events[i].key in untold)
  {
    hide EventsDistinct, ToldOnce, ReadsBefore, Linked, ReadWindow, IsTold, LastReadUntil, MergedRead, KeysDistinct,
         WithRows, Untold, Recorded;
    var (start, capped) := ReadWindow(LastReadUntil(s.past), input.now, c);
    var events := WithRows(s.events, input.rows.value, input.now);
    WithRowsKeeps(s.events, input.rows.value, input.now);
    var untold := Untold(events, s.told, input.now - c.lookback);
    UntoldIs(events, s.told, input.now - c.lookback);
    ReadAdded(s.past, Read(input.now, start, true, capped, |input.rows.value| >= EVENT_ROWS_MAX,
                           if untold == [] then None else input.sent), c, later);
    ToldAdded(s.told, input.now, untold);
    StayRecorded(s.events, events);
    assert s.told + [] == s.told;
  }

  lemma StayRecorded(events: seq<Event>, more: seq<Event>)
    requires events <= more
    ensures forall key :: Recorded(events, key) ==> Recorded(more, key)
  {
    forall key | Recorded(events, key) ensures Recorded(more, key) {
      var i :| 0 <= i < |events| && events[i].key == key;
      assert more[i] == events[i];
    }
  }

  /** In every reachable state a platform row is one event, and an alarm is told by one read. */
  lemma {:induction false} Reachable(inputs: seq<Input>, c: Settings, n: nat, now: int)
    requires Increasing(inputs) && n <= |inputs| && (n > 0 ==> inputs[n - 1].now < now)
    ensures SensorKept(At(inputs, c, n), now, c)
  {
    if n > 0 {
      Reachable(inputs, c, n - 1, inputs[n - 1].now);
      StepKeeps(At(inputs, c, n - 1), inputs[n - 1], c, now);
    }
  }

  // ----- what one read records and tells -------------------------------------------------------

  /** Row `j` is kept and the first of a key not recorded yet. */
  ghost predicate IsFirst(events: seq<Event>, rows: seq<Row>, j: nat) {
    && j < |rows| && rows[j].Kept? && !Recorded(events, rows[j].key)
    && forall m :: 0 <= m < j && rows[m].Kept? ==> rows[m].key != rows[j].key
  }

  /** The events a read adds are exactly those of the first rows of new keys, each with its row's alarm. */
  lemma {:induction false} NewEventsExactly(events: seq<Event>, rows: seq<Row>, until: int)
    ensures var r := WithRows(events, rows, until);
            && events <= r
            && (forall j: nat :: IsFirst(events, rows, j) ==> Event(rows[j].key, rows[j].alarm, until) in r[|events|..])
            && (forall e :: e in r[|events|..] ==>
                  exists j: nat :: IsFirst(events, rows, j) && e == Event(rows[j].key, rows[j].alarm, until))
            && (forall key :: Recorded(r, key) <==>
                  Recorded(events, key) || exists j :: 0 <= j < |rows| && rows[j].Kept? && rows[j].key == key)
  {
    if rows != [] {
      var most, last := rows[..|rows| - 1], rows[|rows| - 1];
      var found, r := WithRows(events, most, until), WithRows(events, rows, until);
      NewEventsExactly(events, most, until);
      forall j: nat | j < |most| ensures IsFirst(events, rows, j) <==> IsFirst(events, most, j) {
        assert forall m :: 0 <= m <= j ==> rows[m] == most[m];
      }
      LastIsFirst(events, rows, found);
      hide IsFirst;
      RecordedOneMore(found, r);
      if r != found { assert r[|events|..] == found[|events|..] + [Event(last.key, last.alarm, until)]; }
      assert forall j :: 0 <= j < |most| ==> rows[j] == most[j];
      forall j: nat | IsFirst(events, rows, j) ensures Event(rows[j].key, rows[j].alarm, until) in r[|events|..] {
        FirstInRange(events, rows, j);
      }
      forall e | e in r[|events|..]
        ensures exists j: nat :: IsFirst(events, rows, j) && e == Event(rows[j].key, rows[j].alarm, until)
      {
        if e in found[|events|..] {
          var j: nat :| IsFirst(events, most, j) && e == Event(most[j].key, most[j].alarm, until);
          FirstInRange(events, most, j);
          assert IsFirst(events, rows, j);
        } else {
          assert IsFirst(events, rows, |most|);
        }
      }
    }
  }

  lemma FirstInRange(events: seq<Event>, rows: seq<Row>, j: nat)
    requires IsFirst(events, rows, j)
    ensures j < |rows|
  {
  }

  lemma LastIsFirst(events: seq<Event>, rows: seq<Row>, found: seq<Event>)
    requires rows != []
    requires var most := rows[..|rows| - 1];
             forall key :: Recorded(found, key) <==>
               Recorded(events, key) || exists j :: 0 <= j < |most| && most[j].Kept? && most[j].key == key
    ensures IsFirst(events, rows, |rows| - 1) <==> rows[|rows| - 1].Kept? && !Recorded(found, rows[|rows| - 1].key)
  {
    hide Recorded;
    var most := rows[..|rows| - 1];
    assert forall j :: 0 <= j < |most| ==> most[j] == rows[j];
  }

  lemma RecordedOneMore(found: seq<Event>, r: seq<Event>)
    requires found <= r && |r| <= |found| + 1
    ensures forall key :: Recorded(r, key) <==> Recorded(found, key) || (|r| > |found| && r[|found|].key == key)
  {
    forall key | Recorded(found, key) ensures Recorded(r, key) {
      var i :| 0 <= i < |found| && found[i].key == key;
      assert r[i].key == key;
    }
  }

  /** What a sent message tells: exactly the alarms recorded within the look-back that no read told before. */
  lemma {:induction false} UntoldExactly(events: seq<Event>, told: seq<Told>, since: int, key: EventKey)
    ensures key in Untold(events, told, since) <==>
            !IsTold(told, key) && exists e :: e in events && e.key == key && e.alarm && e.createdAt >= since
  {
    if events != [] {
      var most, last := events[..|events| - 1], events[|events| - 1];
      UntoldExactly(most, told, since, key);
      assert forall e :: e in events <==> e in most || e == last;
      hide IsTold;
    }
  }

  /** An alarm is told by a read exactly when its message goes out with the alarm untold and in the
      look-back; the read's node carries the message exactly when it had something to tell. */
  lemma TellsExactly(inputs: seq<Input>, c: Settings, n: nat, key: EventKey)
    requires Increasing(inputs) && n < |inputs|
    ensures var s, t, input := At(inputs, c, n), At(inputs, c, n + 1), inputs[n];
            && (IsTold(t.told, key) <==>
                  IsTold(s.told, key)
                  || (input.rows.Some? && input.sent.Some?
                      && exists e :: e in t.events && e.key == key && e.alarm && e.createdAt >= input.now - c.lookback))
            && (input.rows.Some? ==>
                  var r := t.past[|t.past| - 1];
                  && t.past == s.past + [r] && r.until == input.now && r.ok
                  && (r.messageId.Some? <==>
                        input.sent.Some? && exists e :: e in t.events && e.alarm && e.createdAt >= input.now - c.lookback
                                                && !IsTold(s.told, e.key))
                  && (r.messageId.Some? ==> r.messageId == input.sent))
  {
    var s, input := At(inputs, c, n), inputs[n];
    Reachable(inputs, c, n, input.now);
    hide EventsDistinct, ToldOnce, Linked, ReadWindow, LastReadUntil, WithRows, Recorded;
    if input.rows.Some? {
      TellsRead(s, input, c, key);
    } else {
      assert Sensed(s, input, c).told == s.told;
    }
  }

  lemma TellsRead(s: State, input: Input, c: Settings, key: EventKey)
    requires ReadsBefore(s.past, input.now) && input.rows.Some?
    ensures var t := Sensed(s, input, c);
            && (IsTold(t.told, key) <==>
                  IsTold(s.told, key)
                  || (input.sent.Some?
                      && exists e :: e in t.events && e.key == key && e.alarm && e.createdAt >= input.now - c.lookback))
            && var r := t.past[|t.past| - 1];
               && t.past == s.past + [r] && r.until == input.now && r.ok
               && (r.messageId.Some? <==>
                     input.sent.Some? && exists e :: e in t.events && e.alarm && e.createdAt >= input.now - c.lookback
                                                && !IsTold(s.told, e.key))
               && (r.messageId.Some? ==> r.messageId == input.sent)
  {
    hide ReadWindow, LastReadUntil, Untold, IsTold, WithRows;
    var events := WithRows(s.events, input.rows.value, input.now);
    var untold := Untold(events, s.told, input.now - c.lookback);
    UntoldExactly(events, s.told, input.now - c.lookback, key);
    forall k ensures k in untold <==>
        !IsTold(s.told, k) && exists e :: e in events && e.key == k && e.alarm && e.createdAt >= input.now - c.lookback
    {
      UntoldExactly(events, s.told, input.now - c.lookback, k);
    }
    NotReadYet(s.past, input.now);
    ToldMore(s.told, input.now, untold, key);
    assert untold != [] <==> exists k :: k in untold by { if untold != [] { assert untold[0] in untold; } }
    assert s.told + [] == s.told;
  }

  lemma NotReadYet(past: seq<Read>, now: int)
    requires ReadsBefore(past, now)
    ensures !HasRead(past, now)
  {
  }

  lemma ToldMore(told: seq<Told>, read: int, keys: seq<EventKey>, key: EventKey)
    ensures IsTold(told + Edges(read, keys), key) <==> IsTold(told, key) || key in keys
  {
    var more := told + Edges(read, keys);
    if i :| 0 <= i < |told| && told[i].event == key { assert more[i].event == key; }
    if i :| 0 <= i < |keys| && keys[i] == key { assert more[|told| + i].event == key; }
    if i :| 0 <= i < |more| && more[i].event == key {
      if i < |told| { assert told[i].event == key; } else { assert keys[i - |told|] == key; }
    }
  }

  /** A kept row of a successful read is an event from then on. */
  lemma {:induction false} RowsAreRecorded(inputs: seq<Input>, c: Settings, m: nat, n: nat, i: nat)
    requires Increasing(inputs) && m < n <= |inputs| && inputs[m].rows.Some?
    requires i < |inputs[m].rows.value| && inputs[m].rows.value[i].Kept?
    ensures Recorded(At(inputs, c, n).events, inputs[m].rows.value[i].key)
  {
    hide Sensed, SensorKept, Recorded, EventsDistinct;
    var s, input := At(inputs, c, n - 1), inputs[n - 1];
    Reachable(inputs, c, n - 1, input.now);
    StepKeeps(s, input, c, input.now + 1);
    if m == n - 1 {
      KeptDistinct(s, input.now, c);
      ReadKeeps(s, input, c, input.now + 1);
      WithRowsKeeps(s.events, input.rows.value, input.now);
    } else {
      RowsAreRecorded(inputs, c, m, n - 1, i);
      StayRecorded(s.events, At(inputs, c, n).events);
    }
  }

  lemma KeptDistinct(s: State, now: int, c: Settings)
    requires SensorKept(s, now, c)
    ensures EventsDistinct(s.events)
  {
  }

  /** A read whose message goes out leaves no alarm recorded within the look-back untold. */
  lemma SendingTellsAll(inputs: seq<Input>, c: Settings, n: nat, i: nat)
    requires Increasing(inputs) && n < |inputs| && inputs[n].rows.Some? && inputs[n].sent.Some?
    requires i < |At(inputs, c, n + 1).events|
    ensures var t := At(inputs, c, n + 1);
            t.events[i].alarm && t.events[i].createdAt >= inputs[n].now - c.lookback ==> IsTold(t.told, t.events[i].key)
  {
    hide Sensed, SensorKept, IsTold, Untold, WithRows;
    Reachable(inputs, c, n, inputs[n].now);
    ReadKeeps(At(inputs, c, n), inputs[n], c, inputs[n].now + 1);
  }

  /** A failed read moves nothing: the next window starts where it would have started. */
  lemma FailureKeepsWindow(s: State, input: Input, c: Settings)
    requires input.rows.None?
    ensures LastReadUntil(Sensed(s, input, c).past) == LastReadUntil(s.past)
    ensures Sensed(s, input, c).events == s.events && Sensed(s, input, c).told == s.told
  {
    var failed := Read(input.now, 0, false, false, false, None);
    assert (s.past + [failed])[..|s.past|] == s.past;
  }

  /** `t` lies in the window of a successful read, or in the gap a capped one is flagged for. */
  ghost predicate CoveredOrFlagged(past: seq<Read>, t: int) {
    exists i :: 0 <= i < |past| && past[i].ok && t <= past[i].until
      && (past[i].start < t
          || (past[i].capped && LastReadUntil(past[..i]).Some? && LastReadUntil(past[..i]).value < t))
  }

  /** Successful windows leave no gap in ingestion time that no read is flagged for, from the start
      of the first one to the end of the last. */
  lemma {:induction false} NoSilentGap(past: seq<Read>, c: Settings, first: nat, t: int)
    requires Linked(past, c) && first < |past| && past[first].ok && LastReadUntil(past[..first]).None?
    requires forall i, j :: 0 <= i < j < |past| ==> past[i].until < past[j].until
    requires past[first].start < t && LastReadUntil(past).Some? && t <= LastReadUntil(past).value
    ensures CoveredOrFlagged(past, t)
  {
    var most, last := past[..|past| - 1], past[|past| - 1];
    forall i | 0 <= i < |most| ensures most[..i] == past[..i] && most[i] == past[i] {}
    if first < |most| {
      LastReadIs(most);
      assert LastReadUntil(most).Some?;
      if t <= LastReadUntil(most).value {
        NoSilentGap(most, c, first, t);
        CoveredStays(past, t);
        hide CoveredOrFlagged;
      } else {
        assert last.ok;
      }
    }
  }

  lemma CoveredStays(past: seq<Read>, t: int)
    requires past != [] && CoveredOrFlagged(past[..|past| - 1], t)
    ensures CoveredOrFlagged(past, t)
  {
    hide LastReadUntil;
    var most := past[..|past| - 1];
    var i :| 0 <= i < |most| && most[i].ok && t <= most[i].until
      && (most[i].start < t
          || (most[i].capped && LastReadUntil(most[..i]).Some? && LastReadUntil(most[..i]).value < t));
    assert past[i] == most[i] && most[..i] == past[..i];
  }

  /** The same for the reads of any history. */
  lemma HistoryHasNoSilentGap(inputs: seq<Input>, c: Settings, n: nat, first: nat, t: int)
    requires Increasing(inputs) && n <= |inputs|
    requires var past := At(inputs, c, n).past;
             && first < |past| && past[first].ok && LastReadUntil(past[..first]).None?
             && past[first].start < t && LastReadUntil(past).Some? && t <= LastReadUntil(past).value
    ensures CoveredOrFlagged(At(inputs, c, n).past, t)
  {
    Reachable(inputs, c, n, if n > 0 then inputs[n - 1].now + 1 else 0);
    NoSilentGap(At(inputs, c, n).past, c, first, t);
  }

  // ----- the platform's log --------------------------------------------------------------------

  /** A row of the platform's log and when it was ingested. */
  datatype LogRow = LogRow(ingested: int, row: Row)

  /** The events query: all rows ingested after `start` up to `until`, unless it hits its row cap. */
  ghost predicate Delivers(log: seq<LogRow>, start: int, until: int, rows: seq<Row>) {
    |rows| >= EVENT_ROWS_MAX || forall r :: r in log && start < r.ingested <= until ==> r.row in rows
  }

  /** Every read that gets an answer gets the log's rows of its window. */
  ghost predicate ReadsLog(inputs: seq<Input>, c: Settings, log: seq<LogRow>) {
    forall m :: 0 <= m < |inputs| && inputs[m].rows.Some? ==>
      Delivers(log, ReadWindow(LastReadUntil(At(inputs, c, m).past), inputs[m].now, c).0, inputs[m].now, inputs[m].rows.value)
  }

  /** `m` is the read that left `r`. */
  ghost predicate LeftBy(inputs: seq<Input>, c: Settings, r: Read, m: nat)
    requires m < |inputs|
  {
    && inputs[m].rows.Some? && inputs[m].now == r.until
    && (r.start, r.capped) == ReadWindow(LastReadUntil(At(inputs, c, m).past), r.until, c)
    && (r.truncated <==> |inputs[m].rows.value| >= EVENT_ROWS_MAX)
  }

  lemma ReadLeft(s: State, input: Input, c: Settings, r: Read)
    requires ReadsBefore(s.past, input.now) && r in Sensed(s, input, c).past && r !in s.past && r.ok
    ensures input.rows.Some? && input.now == r.until
    ensures (r.start, r.capped) == ReadWindow(LastReadUntil(s.past), r.until, c)
    ensures r.truncated <==> |input.rows.value| >= EVENT_ROWS_MAX
  {
    hide ReadWindow, LastReadUntil, Untold, WithRows;
  }

  lemma {:induction false} EveryReadIsLeft(inputs: seq<Input>, c: Settings, n: nat, r: Read) returns (m: nat)
    requires Increasing(inputs) && n <= |inputs| && r in At(inputs, c, n).past && r.ok
    ensures m < n && LeftBy(inputs, c, r, m)
  {
    hide Sensed, ReadWindow, LastReadUntil, SensorKept;
    if r in At(inputs, c, n - 1).past {
      m := EveryReadIsLeft(inputs, c, n - 1, r);
    } else {
      m := n - 1;
      Reachable(inputs, c, m, inputs[m].now);
      KeptBefore(At(inputs, c, m), inputs[m].now, c);
      ReadLeft(At(inputs, c, m), inputs[m], c, r);
    }
  }

  lemma KeptBefore(s: State, now: int, c: Settings)
    requires SensorKept(s, now, c)
    ensures ReadsBefore(s.past, now)
  {
  }

  /** Some successful read says on its node that rows ingested at `t` may be missing. */
  ghost predicate LossFlagged(past: seq<Read>, t: int) {
    exists i :: 0 <= i < |past| && past[i].ok && t <= past[i].until
      && ((past[i].truncated && past[i].start < t)
          || (past[i].capped && LastReadUntil(past[..i]).Some? && LastReadUntil(past[..i]).value < t))
  }

  /** No loss is silent: a row the platform ingested between the start of the first successful window
      and the end of the last is an event, or a read is flagged for it. */
  lemma NoSilentLoss(inputs: seq<Input>, c: Settings, log: seq<LogRow>, n: nat, first: nat, r: LogRow)
    requires Increasing(inputs) && n <= |inputs| && ReadsLog(inputs, c, log) && r in log && r.row.Kept?
    requires var past, t := At(inputs, c, n).past, r.ingested;
             && first < |past| && past[first].ok && LastReadUntil(past[..first]).None?
             && past[first].start < t && LastReadUntil(past).Some? && t <= LastReadUntil(past).value
    ensures Recorded(At(inputs, c, n).events, r.row.key) || LossFlagged(At(inputs, c, n).past, r.ingested)
  {
    hide At, Recorded, ReadWindow, LastReadUntil;
    var past, t := At(inputs, c, n).past, r.ingested;
    HistoryHasNoSilentGap(inputs, c, n, first, t);
    if !LossFlagged(past, t) {
      var i :| 0 <= i < |past| && past[i].ok && t <= past[i].until && past[i].start < t;
      assert past[i] in past && !past[i].truncated;
      var m := EveryReadIsLeft(inputs, c, n, past[i]);
      var j :| 0 <= j < |inputs[m].rows.value| && inputs[m].rows.value[j] == r.row;
      RowsAreRecorded(inputs, c, m, n, j);
    }
  }
}
