/** No fault is lost by collapsing: over any order of submissions and flushes, what the graph counts
    and what open windows still hold add up to what was submitted. */
module FaultConservation {
  import opened Options
  import opened FaultCollapse

  datatype Op = Submit(fault: Fault) | FlushNow

  function After(s: State, op: Op, seconds: int): State {
    match op
    case Submit(f) => Submitted(s, f, seconds)
    case FlushNow => Flushed(s)
  }

  /** The sink and graph before operation `n`, starting empty. */
  function At(ops: seq<Op>, seconds: int, n: nat): State
    requires n <= |ops|
  {
    if n == 0 then State([], [], [], false) else After(At(ops, seconds, n - 1), ops[n - 1], seconds)
  }

  /** The fault whose open window swallows a submission, if any. */
  function Owner(s: State, op: Op, seconds: int): Option<Fault> {
    match op
    case FlushNow => None
    case Submit(f) =>
      match Find(s.windows, SignatureOf(f))
      case None => None
      case Some(i) => if Within(s.windows[i].first, f, seconds) then Some(s.windows[i].first) else None
  }

  function Submissions(ops: seq<Op>, n: nat): nat
    requires n <= |ops|
  {
    if n == 0 then 0 else Submissions(ops, n - 1) + if ops[n - 1].Submit? then 1 else 0
  }

  /** How many of the first `n` operations were swallowed by `first`'s window. */
  function Swallowed(ops: seq<Op>, seconds: int, n: nat, first: Fault): nat
    requires n <= |ops|
  {
    if n == 0 then 0
    else Swallowed(ops, seconds, n - 1, first)
         + if Owner(At(ops, seconds, n - 1), ops[n - 1], seconds) == Some(first) then 1 else 0
  }

  /** What open windows still hold for a fault. */
  function Held(windows: seq<Window>, first: Fault): nat {
    if windows == [] then 0
    else Held(windows[..|windows| - 1], first)
         + if windows[|windows| - 1].first == first then windows[|windows| - 1].suppressed else 0
  }

  function Tally(s: State, first: Fault): nat { Occurrences(s.summaries, KeyOf(first)) + Held(s.windows, first) }

  function Total(s: State, faults: seq<Fault>): nat {
    if faults == [] then 0 else Total(s, faults[..|faults| - 1]) + Tally(s, faults[|faults| - 1])
  }

  ghost predicate DistinctKeys(ops: seq<Op>) {
    forall i, j :: 0 <= i < j < |ops| && ops[i].Submit? && ops[j].Submit? ==> KeyOf(ops[i].fault) != KeyOf(ops[j].fault)
  }

  // ----- the invariant -------------------------------------------------------------------------

  ghost predicate KeysDiffer(faults: seq<Fault>) {
    forall i, j :: 0 <= i < j < |faults| ==> KeyOf(faults[i]) != KeyOf(faults[j])
  }

  ghost predicate WindowsKept(windows: seq<Window>, faults: seq<Fault>) {
    && (forall i :: 0 <= i < |windows| ==> windows[i].first in faults)
    && (forall i, j :: 0 <= i < j < |windows| ==> SignatureOf(windows[i].first) != SignatureOf(windows[j].first))
  }

  /** A summary belongs to a fault node whose window is closed. */
  ghost predicate SummariesKept(s: State) {
    forall k :: 0 <= k < |s.summaries| ==>
      && s.summaries[k].firstKey == FaultKey(s.summaries[k].signature.origin, s.summaries[k].startedAt)
      && (forall i :: 0 <= i < |s.windows| ==> KeyOf(s.windows[i].first) != s.summaries[k].firstKey)
      && (exists i :: 0 <= i < |s.faults| && KeyOf(s.faults[i]) == s.summaries[k].firstKey)
  }

  ghost predicate Kept(s: State) {
    !s.refused && KeysDiffer(s.faults) && WindowsKept(s.windows, s.faults) && SummariesKept(s)
  }

  // ----- how tallies move ----------------------------------------------------------------------

  lemma {:induction false} HeldUpdated(windows: seq<Window>, i: nat, w: Window, x: Fault)
    requires i < |windows| && w.first == windows[i].first && w.suppressed == windows[i].suppressed + 1
    ensures Held(windows[i := w], x) == Held(windows, x) + if x == w.first then 1 else 0
  {
    var most := windows[..|windows| - 1];
    if i < |most| {
      assert windows[i := w][..|windows| - 1] == most[i := w];
      HeldUpdated(most, i, w, x);
    } else {
      assert windows[i := w][..|windows| - 1] == most;
    }
  }

  lemma {:induction false} HeldRemoved(windows: seq<Window>, i: nat, x: Fault)
    requires i < |windows|
    ensures Held(windows[..i] + windows[i + 1..], x)
         == Held(windows, x) - if windows[i].first == x then windows[i].suppressed else 0
  {
    var most := windows[..|windows| - 1];
    if i < |most| {
      var rest := windows[..i] + windows[i + 1..];
      assert rest[..|rest| - 1] == most[..i] + most[i + 1..];
      assert rest[|rest| - 1] == windows[|windows| - 1];
      HeldRemoved(most, i, x);
    } else {
      assert windows[..i] + windows[i + 1..] == most;
    }
  }

  lemma {:induction false} NothingHeld(windows: seq<Window>, x: Fault)
    requires forall i :: 0 <= i < |windows| ==> windows[i].first != x
    ensures Held(windows, x) == 0
  {
    if windows != [] { NothingHeld(windows[..|windows| - 1], x); }
  }

  lemma {:induction false} NotSummarized(summaries: seq<Summary>, key: FaultKey)
    requires forall k :: 0 <= k < |summaries| ==> summaries[k].firstKey != key
    ensures Occurrences(summaries, key) == 1
  {
    if summaries != [] { NotSummarized(summaries[..|summaries| - 1], key); }
  }

  lemma ClosingKeeps(s: State, i: nat)
    requires Kept(s) && i < |s.windows|
    ensures var rest := s.(windows := s.windows[..i] + s.windows[i + 1..]);
            var t := Summarized(rest, s.windows[i]);
            && Kept(t) && t.faults == s.faults && t.windows == rest.windows
            && t.summaries == (if s.windows[i].suppressed == 0 then s.summaries else s.summaries + [SummaryOf(s.windows[i])])
            && (forall k :: 0 <= k < |s.summaries| ==> s.summaries[k].firstKey != KeyOf(s.windows[i].first))
  {
    var w := s.windows[i];
    var windows := s.windows[..i] + s.windows[i + 1..];
    assert forall k :: 0 <= k < |s.summaries| ==> s.summaries[k].firstKey != KeyOf(w.first);
    forall j | 0 <= j < |windows| ensures windows[j] in s.windows && KeyOf(windows[j].first) != KeyOf(w.first) {
      var k := if j < i then j else j + 1;
      assert windows[j] == s.windows[k];
      SameFault(s.faults, s.windows[k].first, w.first);
    }
    var m :| 0 <= m < |s.faults| && s.faults[m] == w.first;
  }

  /** Closing window `i` moves what it holds into a summary. */
  lemma CloseWindow(s: State, i: nat)
    requires Kept(s) && i < |s.windows|
    ensures var rest := s.(windows := s.windows[..i] + s.windows[i + 1..]);
            var t := Summarized(rest, s.windows[i]);
            && Kept(t) && t.faults == s.faults && t.windows == rest.windows
            && (forall x :: x in s.faults ==> Tally(t, x) == Tally(s, x))
  {
    hide Summarized, SummariesKept, KeysDiffer, Held;
    ClosingKeeps(s, i);
    var w := s.windows[i];
    var t := Summarized(s.(windows := s.windows[..i] + s.windows[i + 1..]), w);
    NotSummarized(s.summaries, KeyOf(w.first));
    forall x | x in s.faults ensures Tally(t, x) == Tally(s, x) {
      HeldRemoved(s.windows, i, x);
      SameFault(s.faults, x, w.first);
      if w.suppressed > 0 { assert t.summaries[..|s.summaries|] == s.summaries; }
    }
  }

  lemma SameFault(faults: seq<Fault>, a: Fault, b: Fault)
    requires KeysDiffer(faults) && a in faults && b in faults
    ensures KeyOf(a) == KeyOf(b) <==> a == b
  {
    var i, j :| 0 <= i < |faults| && 0 <= j < |faults| && faults[i] == a && faults[j] == b;
  }

  lemma SummarizedIgnoresWindows(s: State, w: Window, windows: seq<Window>)
    ensures Summarized(s, w).(windows := windows) == Summarized(s.(windows := windows), w)
  {
  }

  lemma {:induction false} FlushKeeps(s: State, n: nat)
    requires Kept(s) && n <= |s.windows|
    ensures var t := FlushedTo(s, n);
            && Kept(t) && t.faults == s.faults && t.windows == s.windows[n..]
            && (forall x :: x in s.faults ==> Tally(t, x) == Tally(s, x))
  {
    hide Tally, Summarized, KeysDiffer, WindowsKept, SummariesKept;
    if n > 0 {
      FlushKeeps(s, n - 1);
      var t := FlushedTo(s, n - 1);
      CloseWindow(t, 0);
      assert t.windows[..0] + t.windows[1..] == s.windows[n..];
      assert t.windows[0] == s.windows[n - 1];
      SummarizedIgnoresWindows(t, s.windows[n - 1], s.windows[n..]);
    }
  }

  /** A fault of a new key opens a window and is counted once. */
  lemma OpenWindow(s: State, f: Fault)
    requires Kept(s) && Find(s.windows, SignatureOf(f)).None?
    requires forall i :: 0 <= i < |s.faults| ==> KeyOf(s.faults[i]) != KeyOf(f)
    ensures var t := Opened(s, f);
            && Kept(t) && t.faults == s.faults + [f] && Tally(t, f) == 1
            && (forall x :: x in s.faults ==> Tally(t, x) == Tally(s, x))
  {
    hide Find, Occurrences, KeysDiffer, WindowsKept, SummariesKept;
    var t := Opened(s, f);
    assert t.windows[..|s.windows|] == s.windows;
    WindowsStay(s, f);
    NothingHeld(s.windows, f);
    KeyNotSummarized(s, f);
    SummariesStay(s, f);
  }

  lemma WindowsStay(s: State, f: Fault)
    requires KeysDiffer(s.faults) && WindowsKept(s.windows, s.faults) && Find(s.windows, SignatureOf(f)).None?
    requires forall i :: 0 <= i < |s.faults| ==> KeyOf(s.faults[i]) != KeyOf(f)
    ensures KeysDiffer(s.faults + [f]) && WindowsKept(s.windows + [Window(f, 0, f.at)], s.faults + [f])
    ensures forall i :: 0 <= i < |s.windows| ==> s.windows[i].first != f
  {
    hide Find;
    forall i | 0 <= i < |s.windows| ensures s.windows[i].first != f { assert s.windows[i].first in s.faults; }
  }

  lemma KeyNotSummarized(s: State, f: Fault)
    requires SummariesKept(s) && forall i :: 0 <= i < |s.faults| ==> KeyOf(s.faults[i]) != KeyOf(f)
    ensures Occurrences(s.summaries, KeyOf(f)) == 1
  {
    hide Occurrences;
    forall k | 0 <= k < |s.summaries| ensures s.summaries[k].firstKey != KeyOf(f) { var i := SummaryHasNode(s, k); }
    NotSummarized(s.summaries, KeyOf(f));
  }

  /** The node a summary belongs to. */
  lemma SummaryHasNode(s: State, k: nat) returns (i: nat)
    requires SummariesKept(s) && k < |s.summaries|
    ensures i < |s.faults| && KeyOf(s.faults[i]) == s.summaries[k].firstKey
  {
    var summary := s.summaries[k];
    assert exists j :: 0 <= j < |s.faults| && KeyOf(s.faults[j]) == summary.firstKey;
    i :| 0 <= i < |s.faults| && KeyOf(s.faults[i]) == summary.firstKey;
  }

  lemma SummariesStay(s: State, f: Fault)
    requires SummariesKept(s)
    requires forall i :: 0 <= i < |s.faults| ==> KeyOf(s.faults[i]) != KeyOf(f)
    ensures SummariesKept(s.(windows := s.windows + [Window(f, 0, f.at)], faults := s.faults + [f]))
  {
    var t := s.(windows := s.windows + [Window(f, 0, f.at)], faults := s.faults + [f]);
    forall k | 0 <= k < |t.summaries|
      ensures exists i :: 0 <= i < |t.faults| && KeyOf(t.faults[i]) == t.summaries[k].firstKey
      ensures forall i :: 0 <= i < |t.windows| ==> KeyOf(t.windows[i].first) != t.summaries[k].firstKey
    {
      var summary := s.summaries[k];
      var i := SummaryHasNode(s, k);
      assert t.faults[i] == s.faults[i];
      assert KeyOf(f) != summary.firstKey;
    }
  }

  /** A swallowed fault adds one to its owner's tally. */
  lemma Swallow(s: State, f: Fault, seconds: int)
    requires Kept(s) && Owner(s, Submit(f), seconds).Some?
    ensures var t, first := Submitted(s, f, seconds), Owner(s, Submit(f), seconds).value;
            && Kept(t) && t.faults == s.faults && first in s.faults
            && SignatureOf(first) == SignatureOf(f) && Within(first, f, seconds)
            && (forall x :: x in s.faults ==> Tally(t, x) == Tally(s, x) + if x == first then 1 else 0)
  {
    hide Find, Occurrences;
    var i := Find(s.windows, SignatureOf(f)).value;
    var t := Submitted(s, f, seconds);
    forall x | x in s.faults ensures Held(t.windows, x) == Held(s.windows, x) + if x == s.windows[i].first then 1 else 0 {
      HeldUpdated(s.windows, i, t.windows[i], x);
    }
  }

  /** A fault that is not swallowed gets a node of its own. */
  lemma Start(s: State, f: Fault, seconds: int)
    requires Kept(s) && Owner(s, Submit(f), seconds).None?
    requires forall i :: 0 <= i < |s.faults| ==> KeyOf(s.faults[i]) != KeyOf(f)
    ensures var t := Submitted(s, f, seconds);
            && Kept(t) && t.faults == s.faults + [f] && Tally(t, f) == 1
            && (forall x :: x in s.faults ==> Tally(t, x) == Tally(s, x))
  {
    hide Tally, KeysDiffer, SummariesKept;
    var found := Find(s.windows, SignatureOf(f));
    if found.None? {
      OpenWindow(s, f);
    } else {
      CloseWindow(s, found.value);
      var t := Summarized(s.(windows := s.windows[..found.value] + s.windows[found.value + 1..]), s.windows[found.value]);
      NotFoundTwice(s.windows, s.faults, found.value);
      OpenWindow(t, f);
    }
  }

  lemma NotFoundTwice(windows: seq<Window>, faults: seq<Fault>, i: nat)
    requires WindowsKept(windows, faults) && i < |windows|
    ensures Find(windows[..i] + windows[i + 1..], SignatureOf(windows[i].first)).None?
  {
    var rest := windows[..i] + windows[i + 1..];
    forall j | 0 <= j < |rest| ensures SignatureOf(rest[j].first) != SignatureOf(windows[i].first) {
      assert rest[j] == if j < i then windows[j] else windows[j + 1];
    }
  }

  // ----- whole histories -----------------------------------------------------------------------

  /** Every fault node is a submission seen so far. */
  ghost predicate FromOps(s: State, ops: seq<Op>, n: nat)
    requires n <= |ops|
  {
    forall x :: x in s.faults ==> exists j :: 0 <= j < n && ops[j] == Submit(x)
  }

  lemma {:induction false} TotalGrows(s: State, t: State, faults: seq<Fault>, first: Option<Fault>)
    requires KeysDiffer(faults)
    requires forall x :: x in faults ==> Tally(t, x) == Tally(s, x) + if first == Some(x) then 1 else 0
    ensures Total(t, faults) == Total(s, faults) + if first.Some? && first.value in faults then 1 else 0
  {
    hide Tally;
    if faults != [] {
      var most, last := faults[..|faults| - 1], faults[|faults| - 1];
      assert faults == most + [last];
      assert forall i :: 0 <= i < |most| ==> most[i] == faults[i] && most[i] != last;
      TotalGrows(s, t, most, first);
    }
  }

  /** One operation, on a state that holds no node with the key of a fault it submits. */
  lemma Step(s: State, op: Op, seconds: int)
    requires Kept(s)
    requires op.Submit? ==> forall i :: 0 <= i < |s.faults| ==> KeyOf(s.faults[i]) != KeyOf(op.fault)
    ensures var t, owner := After(s, op, seconds), Owner(s, op, seconds);
            && Kept(t)
            && t.faults == (if op.Submit? && owner.None? then s.faults + [op.fault] else s.faults)
            && (owner.Some? ==> op.Submit? && owner.value in s.faults)
            && (forall x :: x in s.faults ==> Tally(t, x) == Tally(s, x) + if owner == Some(x) then 1 else 0)
            && (op.Submit? && owner.None? ==> Tally(t, op.fault) == 1)
  {
    hide Tally, Submitted, KeysDiffer, WindowsKept, SummariesKept, Find, FlushedTo;
    match op
    case FlushNow => FlushKeeps(s, |s.windows|);
    case Submit(f) => if Owner(s, op, seconds).Some? { Swallow(s, f, seconds); } else { Start(s, f, seconds); }
  }

  lemma FreshKey(s: State, ops: seq<Op>, n: nat)
    requires DistinctKeys(ops) && n < |ops| && ops[n].Submit? && FromOps(s, ops, n)
    ensures forall i :: 0 <= i < |s.faults| ==> KeyOf(s.faults[i]) != KeyOf(ops[n].fault)
  {
    forall i | 0 <= i < |s.faults| ensures KeyOf(s.faults[i]) != KeyOf(ops[n].fault) {
      assert s.faults[i] in s.faults;
    }
  }

  /** Every history with distinct keys keeps the invariant, and merges nothing it is refused. */
  lemma {:induction false} HistoryKeeps(ops: seq<Op>, seconds: int, n: nat)
    requires DistinctKeys(ops) && n <= |ops|
    ensures Kept(At(ops, seconds, n)) && FromOps(At(ops, seconds, n), ops, n)
  {
    hide Tally, After, Owner, KeysDiffer, WindowsKept, SummariesKept;
    if n == 0 {
      EmptyKept();
    } else {
      HistoryKeeps(ops, seconds, n - 1);
      var s, op := At(ops, seconds, n - 1), ops[n - 1];
      if op.Submit? { FreshKey(s, ops, n - 1); }
      Step(s, op, seconds);
    }
  }

  lemma EmptyKept()
    ensures Kept(State([], [], [], false))
  {
  }

  /** The last operation of a history, for one fault node: it adds one to the tally of the fault whose
      window swallows it, and nothing to others; a fault not swallowed starts at one. */
  lemma TallyStep(ops: seq<Op>, seconds: int, n: nat, x: Fault)
    requires DistinctKeys(ops) && n <= |ops| && x in At(ops, seconds, n).faults
    ensures n > 0
    ensures var s, t, op := At(ops, seconds, n - 1), At(ops, seconds, n), ops[n - 1];
            var owner := Owner(s, op, seconds);
            if x in s.faults then Tally(t, x) == Tally(s, x) + if owner == Some(x) then 1 else 0
            else op == Submit(x) && owner.None? && Tally(t, x) == 1
  {
    hide Tally, After, Owner, WindowsKept, SummariesKept, KeysDiffer;
    HistoryKeeps(ops, seconds, n - 1);
    if ops[n - 1].Submit? { FreshKey(At(ops, seconds, n - 1), ops, n - 1); }
    Step(At(ops, seconds, n - 1), ops[n - 1], seconds);
  }

  /** ... and over all nodes it adds one exactly when it submits. */
  lemma TotalStep(ops: seq<Op>, seconds: int, n: nat)
    requires DistinctKeys(ops) && 0 < n <= |ops|
    ensures var s, t := At(ops, seconds, n - 1), At(ops, seconds, n);
            Total(t, t.faults) == Total(s, s.faults) + if ops[n - 1].Submit? then 1 else 0
  {
    hide Tally, After, Owner, WindowsKept, SummariesKept;
    var s, op := At(ops, seconds, n - 1), ops[n - 1];
    HistoryKeeps(ops, seconds, n - 1);
    if op.Submit? { FreshKey(s, ops, n - 1); }
    Step(s, op, seconds);
    var t, owner := After(s, op, seconds), Owner(s, op, seconds);
    TotalGrows(s, t, s.faults, owner);
    if op.Submit? && owner.None? { assert t.faults[..|s.faults|] == s.faults; }
  }

  /** A submission is swallowed only by the window of an earlier submission with the same signature,
      and only while it is within that window. */
  lemma SwallowedWithinWindow(ops: seq<Op>, seconds: int, n: nat)
    requires DistinctKeys(ops) && n < |ops| && Owner(At(ops, seconds, n), ops[n], seconds).Some?
    ensures var first, f := Owner(At(ops, seconds, n), ops[n], seconds).value, ops[n].fault;
            && SignatureOf(first) == SignatureOf(f) && 0 <= f.at - first.at <= seconds
            && exists j :: 0 <= j < n && ops[j] == Submit(first)
  {
    HistoryKeeps(ops, seconds, n);
    Swallow(At(ops, seconds, n), ops[n].fault, seconds);
  }

  lemma {:induction false} NotSwallowedByLater(ops: seq<Op>, seconds: int, n: nat, k: nat)
    requires DistinctKeys(ops) && n <= k < |ops| && ops[k].Submit?
    ensures Swallowed(ops, seconds, n, ops[k].fault) == 0
  {
    hide At, Owner;
    if n > 0 {
      NotSwallowedByLater(ops, seconds, n - 1, k);
      if Owner(At(ops, seconds, n - 1), ops[n - 1], seconds).Some? { SwallowedWithinWindow(ops, seconds, n - 1); }
    }
  }

  /** Each fault node counts itself and everything its window swallowed. */
  lemma {:induction false} EachFaultIsCounted(ops: seq<Op>, seconds: int, n: nat, x: Fault)
    requires DistinctKeys(ops) && n <= |ops| && x in At(ops, seconds, n).faults
    ensures Tally(At(ops, seconds, n), x) == 1 + Swallowed(ops, seconds, n, x)
  {
    hide At, Tally, Owner, DistinctKeys;
    TallyStep(ops, seconds, n, x);
    if x in At(ops, seconds, n - 1).faults {
      EachFaultIsCounted(ops, seconds, n - 1, x);
    } else {
      NotSwallowedByLater(ops, seconds, n - 1, n - 1);
    }
  }

  lemma NothingAtFirst(ops: seq<Op>, seconds: int)
    ensures Total(At(ops, seconds, 0), At(ops, seconds, 0).faults) == 0
  {
  }

  /** Counted occurrences plus what open windows hold equal the submissions, at every moment. */
  lemma {:induction false} NothingIsLost(ops: seq<Op>, seconds: int, n: nat)
    requires DistinctKeys(ops) && n <= |ops|
    ensures Total(At(ops, seconds, n), At(ops, seconds, n).faults) == Submissions(ops, n)
  {
    hide At, Total, DistinctKeys;
    if n > 0 {
      NothingIsLost(ops, seconds, n - 1);
      TotalStep(ops, seconds, n);
    } else {
      NothingAtFirst(ops, seconds);
    }
  }

  lemma {:induction false} AllInRange(s: State, faults: seq<Fault>, start: int)
    requires s.windows == [] && forall i :: 0 <= i < |faults| ==> start <= faults[i].at
    ensures CountInWindow(faults, s.summaries, start, None) == Total(s, faults)
  {
    if faults != [] { AllInRange(s, faults[..|faults| - 1], start); }
  }

  /** After a flush the query over all of time counts every submission, exactly. */
  lemma FlushedQueryIsExact(ops: seq<Op>, seconds: int, n: nat, start: int)
    requires DistinctKeys(ops) && 0 < n <= |ops| && ops[n - 1] == FlushNow
    requires forall i :: 0 <= i < |ops| && ops[i].Submit? ==> start <= ops[i].fault.at
    ensures var s := At(ops, seconds, n);
            CountInWindow(s.faults, s.summaries, start, None) == Submissions(ops, n)
  {
    var s := At(ops, seconds, n);
    NothingIsLost(ops, seconds, n);
    HistoryKeeps(ops, seconds, n);
    assert forall i :: 0 <= i < |s.faults| ==> start <= s.faults[i].at by {
      assert forall i :: 0 <= i < |s.faults| ==> s.faults[i] in s.faults;
    }
    assert s.windows == [] by { FlushLeavesNone(ops, seconds, n); }
    hide At, Total, Kept, FromOps, CountInWindow;
    AllInRange(s, s.faults, start);
  }

  lemma FlushLeavesNone(ops: seq<Op>, seconds: int, n: nat)
    requires DistinctKeys(ops) && 0 < n <= |ops| && ops[n - 1] == FlushNow
    ensures At(ops, seconds, n).windows == []
  {
    var s := At(ops, seconds, n - 1);
    HistoryKeeps(ops, seconds, n - 1);
    hide Kept, FromOps;
    FlushKeeps(s, |s.windows|);
  }

  lemma {:induction false} SameTallies(s: State, t: State, faults: seq<Fault>)
    requires forall x :: x in faults ==> Tally(t, x) == Tally(s, x)
    ensures Total(t, faults) == Total(s, faults)
  {
    if faults != [] {
      assert forall x :: x in faults[..|faults| - 1] ==> x in faults;
      SameTallies(s, t, faults[..|faults| - 1]);
      assert faults[|faults| - 1] in faults;
    }
  }

  /** Opening a window for a fault whose key is stored already counts nothing new. */
  lemma ReopenedCountsNothing(s: State, f: Fault)
    requires !s.refused && exists i :: 0 <= i < |s.faults| && KeyOf(s.faults[i]) == KeyOf(f)
    ensures var t := Opened(s, f);
            t.refused || (t.faults == s.faults && Total(t, t.faults) == Total(s, s.faults))
  {
    var t := Opened(s, f);
    if !t.refused {
      assert t.windows[..|t.windows| - 1] == s.windows;
      SameTallies(s, t, s.faults);
    }
  }

  ghost predicate NewKey(s: State, f: Fault) {
    forall i :: 0 <= i < |s.faults| ==> KeyOf(s.faults[i]) != KeyOf(f)
  }

  lemma StoredKeyNotCounted(s: State, f: Fault, seconds: int)
    requires Kept(s) && Owner(s, Submit(f), seconds).None? && !NewKey(s, f)
    ensures var t := Submitted(s, f, seconds); t.refused || Total(t, t.faults) == Total(s, s.faults)
  {
    hide Tally, WindowsKept, SummariesKept, Summarized, KeysDiffer, Total, Opened;
    match Find(s.windows, SignatureOf(f))
    case None => ReopenedCountsNothing(s, f);
    case Some(i) =>
      CloseWindow(s, i);
      var closed := Summarized(s.(windows := s.windows[..i] + s.windows[i + 1..]), s.windows[i]);
      SameTallies(s, closed, s.faults);
      ReopenedCountsNothing(closed, f);
  }

  lemma NewKeyCounted(s: State, f: Fault, seconds: int)
    requires Kept(s) && Owner(s, Submit(f), seconds).None? && NewKey(s, f)
    ensures var t := Submitted(s, f, seconds); !t.refused && Total(t, t.faults) == Total(s, s.faults) + 1
  {
    hide Tally, WindowsKept, SummariesKept, Submitted, Owner;
    Start(s, f, seconds);
    var t := Submitted(s, f, seconds);
    TotalGrows(s, t, s.faults, None);
    assert t.faults[..|s.faults|] == s.faults;
  }

  /** What distinct keys are needed for, one submission at a time: it is counted once exactly when a
      window swallows it or no node has its key yet. */
  lemma CountedExactlyWhen(s: State, f: Fault, seconds: int)
    requires Kept(s)
    ensures var t := Submitted(s, f, seconds);
            (!t.refused && Total(t, t.faults) == Total(s, s.faults) + 1) <==>
            (Owner(s, Submit(f), seconds).Some? || NewKey(s, f))
  {
    var owner, t := Owner(s, Submit(f), seconds), Submitted(s, f, seconds);
    hide Tally, WindowsKept, SummariesKept, Submitted, Owner, Total, NewKey;
    if owner.Some? {
      Swallow(s, f, seconds);
      TotalGrows(s, t, s.faults, owner);
    } else if NewKey(s, f) {
      NewKeyCounted(s, f, seconds);
    } else {
      StoredKeyNotCounted(s, f, seconds);
    }
  }

  /** Distinct keys are needed: two errors of one origin in one instant share a node key, and the
      second submission raises instead of being counted. */
  lemma SameInstantIsRefused(f: Fault, g: Fault, seconds: int)
    requires KeyOf(f) == KeyOf(g) && SignatureOf(f) != SignatureOf(g)
    ensures At([Submit(f), Submit(g)], seconds, 2).refused
    ensures At([Submit(f), Submit(g)], seconds, 2).faults == [f]
  {
    var ops := [Submit(f), Submit(g)];
    var empty := State([], [], [], false);
    var s := State([Window(f, 0, f.at)], [f], [], false);
    assert Find(empty.windows, SignatureOf(f)).None?;
    assert Opened(empty, f) == s;
    assert At(ops, seconds, 0) == empty;
    assert At(ops, seconds, 1) == After(empty, ops[0], seconds);
    OtherSignatureRaises(s, f, g, seconds);
    assert At(ops, seconds, 2) == After(At(ops, seconds, 1), ops[1], seconds);
  }

  lemma OtherSignatureRaises(s: State, f: Fault, g: Fault, seconds: int)
    requires s == State([Window(f, 0, f.at)], [f], [], false)
    requires KeyOf(f) == KeyOf(g) && SignatureOf(f) != SignatureOf(g)
    ensures Submitted(s, g, seconds) == s.(refused := true)
  {
    assert s.windows[..0] == [] && s.windows[0].first == f;
    assert Find(s.windows, SignatureOf(g)) == Find([], SignatureOf(g));
    assert KeyOf(s.faults[0]) == KeyOf(g) && g !in s.faults;
  }

  // ----- when a submission is swallowed --------------------------------------------------------

  /** The two faults are the same error: same origin, type and message digest. */
  predicate SameError(a: Fault, b: Fault) {
    a.origin == b.origin && a.errorType == b.errorType && a.digest == b.digest
  }

  ghost predicate HasWindow(windows: seq<Window>, x: Fault) {
    exists w :: w in windows && w.first == x
  }

  /** Submission `j` opened a window, and up to `n` there was no flush and no submission of the same error
      that was not swallowed. */
  ghost predicate StaysOpen(ops: seq<Op>, seconds: int, j: nat, n: nat)
    requires j < n <= |ops|
  {
    && ops[j].Submit? && Owner(At(ops, seconds, j), ops[j], seconds).None?
    && forall m :: j < m < n ==> KeepsOpen(ops, seconds, m, ops[j])
  }

  ghost predicate KeepsOpen(ops: seq<Op>, seconds: int, m: nat, op: Op)
    requires m < |ops| && op.Submit?
  {
    ops[m].Submit? && (SameError(ops[m].fault, op.fault) ==> Owner(At(ops, seconds, m), ops[m], seconds).Some?)
  }

  ghost predicate OpenedFor(ops: seq<Op>, seconds: int, n: nat, x: Fault)
    requires n <= |ops|
  {
    exists j :: 0 <= j < n && ops[j] == Submit(x) && StaysOpen(ops, seconds, j, n)
  }

  /** A window is open for a fault exactly when its submission opened one that stays open. */
  lemma {:induction false} OpenWindowsExactly(ops: seq<Op>, seconds: int, n: nat, x: Fault)
    requires DistinctKeys(ops) && n <= |ops|
    ensures HasWindow(At(ops, seconds, n).windows, x) <==> OpenedFor(ops, seconds, n, x)
  {
    hide At, Owner, DistinctKeys, SameError, HasWindow, OpenedFor;
    if n == 0 {
      NoneAtFirst(ops, seconds, x);
    } else {
      OpenWindowsExactly(ops, seconds, n - 1, x);
      WindowsStep(ops, seconds, n - 1, x);
      OpenedStep(ops, seconds, n - 1, x);
    }
  }

  lemma NoneAtFirst(ops: seq<Op>, seconds: int, x: Fault)
    ensures !HasWindow(At(ops, seconds, 0).windows, x) && !OpenedFor(ops, seconds, 0, x)
  {
  }

  lemma OpenedStep(ops: seq<Op>, seconds: int, n: nat, x: Fault)
    requires DistinctKeys(ops) && n < |ops|
    ensures var op, owner := ops[n], Owner(At(ops, seconds, n), ops[n], seconds);
            OpenedFor(ops, seconds, n + 1, x) <==>
              op.Submit? && if owner.Some? then OpenedFor(ops, seconds, n, x)
                            else op.fault == x || (OpenedFor(ops, seconds, n, x) && !SameError(op.fault, x))
  {
    hide At, Owner, SameError;
    forall j | 0 <= j < n && ops[j] == Submit(x)
      ensures StaysOpen(ops, seconds, j, n + 1) <==> StaysOpen(ops, seconds, j, n) && KeepsOpen(ops, seconds, n, ops[j])
    {
    }
    if ops[n] == Submit(x) {
      assert forall j :: 0 <= j < n ==> ops[j] != ops[n];
      if Owner(At(ops, seconds, n), ops[n], seconds).None? { assert StaysOpen(ops, seconds, n, n + 1); }
    }
  }

  lemma WindowsStep(ops: seq<Op>, seconds: int, n: nat, x: Fault)
    requires DistinctKeys(ops) && n < |ops|
    ensures var s, t, op := At(ops, seconds, n), At(ops, seconds, n + 1), ops[n];
            var owner := Owner(s, op, seconds);
            HasWindow(t.windows, x) <==>
              op.Submit? && if owner.Some? then HasWindow(s.windows, x)
                            else op.fault == x || (HasWindow(s.windows, x) && !SameError(op.fault, x))
  {
    var s, op := At(ops, seconds, n), ops[n];
    HistoryKeeps(ops, seconds, n);
    if op.Submit? { FreshKey(s, ops, n); }
    OneStep(ops, seconds, n);
    hide DistinctKeys, FromOps, At, HasWindow, Submitted, SameError, Owner;
    match op
    case FlushNow => FlushedHasNone(s, x);
    case Submit(f) =>
      if Owner(s, op, seconds).Some? { SwallowWindows(s, f, seconds, x); } else { StartWindows(s, f, seconds, x); }
  }

  lemma FlushedHasNone(s: State, x: Fault)
    requires Kept(s)
    ensures !HasWindow(Flushed(s).windows, x) && Owner(s, FlushNow, 0).None?
  {
    FlushKeeps(s, |s.windows|);
    hide Kept;
  }

  lemma OneStep(ops: seq<Op>, seconds: int, n: nat)
    requires n < |ops|
    ensures At(ops, seconds, n + 1) == After(At(ops, seconds, n), ops[n], seconds)
  {
  }

  lemma SwallowWindows(s: State, f: Fault, seconds: int, x: Fault)
    requires Owner(s, Submit(f), seconds).Some?
    ensures HasWindow(Submitted(s, f, seconds).windows, x) <==> HasWindow(s.windows, x)
  {
    hide Find;
    var i, t := Find(s.windows, SignatureOf(f)).value, Submitted(s, f, seconds);
    if w :| w in s.windows && w.first == x {
      var k :| 0 <= k < |s.windows| && s.windows[k] == w;
      assert t.windows[k] in t.windows && t.windows[k].first == x;
    }
    if w :| w in t.windows && w.first == x {
      var k :| 0 <= k < |t.windows| && t.windows[k] == w;
      assert s.windows[k] in s.windows && s.windows[k].first == x;
    }
  }

  lemma StartWindows(s: State, f: Fault, seconds: int, x: Fault)
    requires Kept(s) && Owner(s, Submit(f), seconds).None?
    requires forall i :: 0 <= i < |s.faults| ==> KeyOf(s.faults[i]) != KeyOf(f)
    ensures HasWindow(Submitted(s, f, seconds).windows, x) <==> f == x || (HasWindow(s.windows, x) && !SameError(f, x))
  {
    var found := Find(s.windows, SignatureOf(f));
    assert SameError(f, x) <==> SignatureOf(x) == SignatureOf(f);
    hide KeysDiffer, SummariesKept, SameError, SignatureOf, HasWindow, Summarized;
    if found.None? {
      OpenWindow(s, f);
      OneMoreWindow(s.windows, Window(f, 0, f.at), x);
      OtherError(s.windows, f, x);
      assert Opened(s, f).windows == s.windows + [Window(f, 0, f.at)];
    } else {
      RestWindows(s, f, found.value, x);
    }
  }

  lemma OneMoreWindow(windows: seq<Window>, w: Window, x: Fault)
    ensures HasWindow(windows + [w], x) <==> HasWindow(windows, x) || w.first == x
  {
    var more := windows + [w];
    assert more[|windows|] in more;
    assert forall v :: v in windows ==> v in more;
  }

  lemma OtherError(windows: seq<Window>, f: Fault, x: Fault)
    requires forall i :: 0 <= i < |windows| ==> SignatureOf(windows[i].first) != SignatureOf(f)
    ensures HasWindow(windows, x) ==> SignatureOf(x) != SignatureOf(f)
  {
    hide SignatureOf;
  }

  lemma RestWindows(s: State, f: Fault, i: nat, x: Fault)
    requires Kept(s) && i < |s.windows| && SignatureOf(s.windows[i].first) == SignatureOf(f)
    requires forall k :: 0 <= k < |s.faults| ==> KeyOf(s.faults[k]) != KeyOf(f)
    ensures var rest := s.(windows := s.windows[..i] + s.windows[i + 1..]);
            var t := Opened(Summarized(rest, s.windows[i]), f);
            HasWindow(t.windows, x) <==> f == x || (HasWindow(s.windows, x) && SignatureOf(x) != SignatureOf(f))
  {
    var rest := s.(windows := s.windows[..i] + s.windows[i + 1..]);
    CloseWindow(s, i);
    var closed := Summarized(rest, s.windows[i]);
    NotFoundTwice(s.windows, s.faults, i);
    hide SummariesKept, KeysDiffer, Summarized, SignatureOf, WindowsKept, Find;
    OpenWindow(closed, f);
    FindNone(closed.windows, SignatureOf(f));
    OneMoreWindow(rest.windows, Window(f, 0, f.at), x);
    OtherError(rest.windows, f, x);
    assert Opened(closed, f).windows == rest.windows + [Window(f, 0, f.at)];
    WithoutOne(s.windows, i, x);
    hide HasWindow;
  }

  lemma FindNone(windows: seq<Window>, signature: Signature)
    requires Find(windows, signature).None?
    ensures forall i :: 0 <= i < |windows| ==> SignatureOf(windows[i].first) != signature
  {
  }

  lemma WithoutOne(windows: seq<Window>, i: nat, x: Fault)
    requires i < |windows|
    ensures HasWindow(windows, x) <==> HasWindow(windows[..i] + windows[i + 1..], x) || windows[i].first == x
  {
    var rest := windows[..i] + windows[i + 1..];
    if w :| w in windows && w.first == x {
      var k :| 0 <= k < |windows| && windows[k] == w;
      if k != i { assert rest[if k < i then k else k - 1] == w; }
    }
    if windows[i].first == x { assert windows[i] in windows; }
  }

  ghost predicate ErrorsDiffer(windows: seq<Window>) {
    forall i, j :: 0 <= i < j < |windows| ==> SignatureOf(windows[i].first) != SignatureOf(windows[j].first)
  }

  /** No two windows of one error are ever open. */
  lemma {:induction false} OneWindowPerError(ops: seq<Op>, seconds: int, n: nat)
    requires n <= |ops|
    ensures ErrorsDiffer(At(ops, seconds, n).windows)
  {
    hide ErrorsDiffer, After;
    if n == 0 {
      NoWindows();
    } else {
      OneWindowPerError(ops, seconds, n - 1);
      StepKeepsErrors(At(ops, seconds, n - 1), ops[n - 1], seconds);
    }
  }

  lemma NoWindows()
    ensures ErrorsDiffer([])
  {
  }

  lemma StepKeepsErrors(s: State, op: Op, seconds: int)
    requires ErrorsDiffer(s.windows)
    ensures ErrorsDiffer(After(s, op, seconds).windows)
  {
    hide ErrorsDiffer, Submitted, FlushedTo;
    match op
    case FlushNow => FlushDrops(s, |s.windows|);
    case Submit(f) => SubmitKeepsErrors(s, f, seconds);
  }

  lemma SubmitKeepsErrors(s: State, f: Fault, seconds: int)
    requires ErrorsDiffer(s.windows)
    ensures ErrorsDiffer(Submitted(s, f, seconds).windows)
  {
    hide Find, Within, SignatureOf, ErrorsDiffer, Opened, Summarized;
    match Find(s.windows, SignatureOf(f))
    case None => OpenedErrors(s, f);
    case Some(i) =>
      var w, rest := s.windows[i], s.windows[..i] + s.windows[i + 1..];
      if Within(w.first, f, seconds) {
        SameFirsts(s.windows, i, w.(suppressed := w.suppressed + 1, lastSeen := f.at));
      } else {
        OthersDiffer(s.windows, i);
        var t := Summarized(s.(windows := rest), w);
        assert t.windows == rest by { hide *; SummarizedKeepsWindows(s.(windows := rest), w); }
        OpenedErrors(t, f);
      }
  }

  lemma SummarizedKeepsWindows(s: State, w: Window)
    ensures Summarized(s, w).windows == s.windows
  {
  }

  lemma OpenedErrors(s: State, f: Fault)
    requires ErrorsDiffer(s.windows) && forall i :: 0 <= i < |s.windows| ==> SignatureOf(s.windows[i].first) != SignatureOf(f)
    ensures ErrorsDiffer(Opened(s, f).windows)
  {
    hide SignatureOf;
  }

  lemma SameFirsts(windows: seq<Window>, i: nat, w: Window)
    requires i < |windows| && w.first == windows[i].first && ErrorsDiffer(windows)
    ensures ErrorsDiffer(windows[i := w])
  {
    hide SignatureOf;
    assert forall k :: 0 <= k < |windows| ==> windows[i := w][k].first == windows[k].first;
  }

  lemma OthersDiffer(windows: seq<Window>, i: nat)
    requires i < |windows| && ErrorsDiffer(windows)
    ensures ErrorsDiffer(windows[..i] + windows[i + 1..])
    ensures var rest := windows[..i] + windows[i + 1..];
            forall k :: 0 <= k < |rest| ==> SignatureOf(rest[k].first) != SignatureOf(windows[i].first)
  {
    hide SignatureOf;
    var rest := windows[..i] + windows[i + 1..];
    assert forall k :: 0 <= k < |rest| ==> rest[k] == if k < i then windows[k] else windows[k + 1];
  }

  lemma {:induction false} FlushDrops(s: State, n: nat)
    requires n <= |s.windows| && ErrorsDiffer(s.windows)
    ensures ErrorsDiffer(FlushedTo(s, n).windows)
    ensures exists k :: 0 <= k <= n && FlushedTo(s, n).windows == s.windows[k..]
  {
    hide Summarized, SignatureOf;
    if n > 0 {
      FlushDrops(s, n - 1);
    }
  }

  /** In every history, whatever its keys, a submission is swallowed exactly when a window of the same error
      is open and began no more than the window's length before it. */
  lemma OpenWindowSwallows(ops: seq<Op>, seconds: int, n: nat)
    requires n < |ops| && ops[n].Submit?
    ensures Owner(At(ops, seconds, n), ops[n], seconds).Some? <==>
            exists w :: w in At(ops, seconds, n).windows && SameError(ops[n].fault, w.first)
                        && 0 <= ops[n].fault.at - w.first.at <= seconds
  {
    OneWindowPerError(ops, seconds, n);
    var s, f := At(ops, seconds, n), ops[n].fault;
    hide At, Find, ErrorsDiffer;
    var found := Find(s.windows, SignatureOf(f));
    if found.Some? { assert s.windows[found.value] in s.windows; }
    forall w | w in s.windows && SameError(f, w.first) ensures found.Some? && s.windows[found.value] == w {
      OnlyWindow(s.windows, f, w);
    }
  }

  lemma OnlyWindow(windows: seq<Window>, f: Fault, w: Window)
    requires ErrorsDiffer(windows) && w in windows && SameError(f, w.first)
    ensures var found := Find(windows, SignatureOf(f)); found.Some? && windows[found.value] == w
  {
    var k :| 0 <= k < |windows| && windows[k] == w;
    assert SignatureOf(windows[k].first) == SignatureOf(f);
    hide Find;
    var found := Find(windows, SignatureOf(f)).value;
    assert SignatureOf(windows[found].first) == SignatureOf(windows[k].first);
  }

  /** A closed window: nothing is written for one that swallowed nothing; otherwise its summary, unless one
      of the same error and start is stored, which must then be the same. */
  lemma SummaryExactly(s: State, w: Window)
    ensures var t := Summarized(s, w);
            var clash := exists m :: m in s.summaries && m.signature.origin == w.first.origin
                                     && m.signature.errorType == w.first.errorType && m.signature.digest == w.first.digest
                                     && m.startedAt == w.first.at;
            && t.windows == s.windows && t.faults == s.faults
            && (w.suppressed == 0 ==> t == s)
            && (w.suppressed > 0 && !clash ==> t.summaries == s.summaries + [SummaryOf(w)] && t.refused == s.refused)
            && (w.suppressed > 0 && clash ==>
                  t.summaries == s.summaries && (t.refused <==> s.refused || SummaryOf(w) !in s.summaries))
  {
    if w.suppressed > 0 {
      if m :| m in s.summaries && SameSummaryKey(m, SummaryOf(w)) {
        var i :| 0 <= i < |s.summaries| && s.summaries[i] == m;
      }
    }
  }

  /** A submission is swallowed exactly when a window of the same error is open and it falls within that
      window. */
  lemma SwallowedExactly(ops: seq<Op>, seconds: int, n: nat)
    requires DistinctKeys(ops) && n < |ops| && ops[n].Submit?
    ensures Owner(At(ops, seconds, n), ops[n], seconds).Some? <==>
            exists j :: 0 <= j < n && StaysOpen(ops, seconds, j, n) && SameError(ops[n].fault, ops[j].fault)
                        && 0 <= ops[n].fault.at - ops[j].fault.at <= seconds
  {
    var s, f := At(ops, seconds, n), ops[n].fault;
    HistoryKeeps(ops, seconds, n);
    hide At, DistinctKeys, FromOps, SummariesKept, KeysDiffer, StaysOpen;
    if Owner(s, ops[n], seconds).Some? {
      var w := s.windows[Find(s.windows, SignatureOf(f)).value];
      OpenWindowsExactly(ops, seconds, n, w.first);
      assert w in s.windows && SameError(f, w.first);
    }
    if j :| 0 <= j < n && StaysOpen(ops, seconds, j, n) && SameError(f, ops[j].fault) && 0 <= f.at - ops[j].fault.at <= seconds {
      StaysSubmit(ops, seconds, j, n);
      OpenWindowsExactly(ops, seconds, n, ops[j].fault);
      WindowFound(s, f, ops[j].fault);
    }
  }

  lemma WindowFound(s: State, f: Fault, x: Fault)
    requires WindowsKept(s.windows, s.faults) && HasWindow(s.windows, x) && SameError(f, x)
    ensures Find(s.windows, SignatureOf(f)).Some? && s.windows[Find(s.windows, SignatureOf(f)).value].first == x
  {
    var w :| w in s.windows && w.first == x;
    var k :| 0 <= k < |s.windows| && s.windows[k] == w;
    var found := Find(s.windows, SignatureOf(f));
    assert SignatureOf(s.windows[k].first) == SignatureOf(f);
  }

  lemma StaysSubmit(ops: seq<Op>, seconds: int, j: nat, n: nat)
    requires j < n <= |ops| && StaysOpen(ops, seconds, j, n)
    ensures ops[j] == Submit(ops[j].fault)
  {
  }

  // ----- part of the time ----------------------------------------------------------------------

  /** The query's range takes in its start and leaves out its end: adjacent ranges add up. */
  lemma {:induction false} RangesAdd(faults: seq<Fault>, summaries: seq<Summary>, start: int, mid: int, end: Option<int>)
    requires start <= mid && (end.Some? ==> mid <= end.value)
    ensures CountInWindow(faults, summaries, start, Some(mid)) + CountInWindow(faults, summaries, mid, end)
         == CountInWindow(faults, summaries, start, end)
  {
    hide Occurrences;
    if faults != [] { RangesAdd(faults[..|faults| - 1], summaries, start, mid, end); }
  }

  /** A range of one instant counts the faults first seen then. */
  lemma {:induction false} InstantCounts(faults: seq<Fault>, summaries: seq<Summary>, at: int, i: nat)
    requires i < |faults| && faults[i].at == at && forall j :: 0 <= j < |faults| && j != i ==> faults[j].at != at
    ensures CountInWindow(faults, summaries, at, Some(at + 1)) == Occurrences(summaries, KeyOf(faults[i]))
  {
    hide Occurrences;
    var most := faults[..|faults| - 1];
    if i < |most| {
      InstantCounts(most, summaries, at, i);
    } else {
      NoneThen(most, summaries, at);
    }
  }

  lemma {:induction false} NoneThen(faults: seq<Fault>, summaries: seq<Summary>, at: int)
    requires forall j :: 0 <= j < |faults| ==> faults[j].at != at
    ensures CountInWindow(faults, summaries, at, Some(at + 1)) == 0
  {
    if faults != [] { NoneThen(faults[..|faults| - 1], summaries, at); }
  }

  // ----- when a fault was last seen ------------------------------------------------------------

  /** The time of the last of the first `n` operations that `first`'s window swallowed, or its own. */
  function LastSeen(ops: seq<Op>, seconds: int, n: nat, first: Fault): int
    requires n <= |ops|
  {
    if n == 0 then first.at
    else if Owner(At(ops, seconds, n - 1), ops[n - 1], seconds) == Some(first) then ops[n - 1].fault.at
    else LastSeen(ops, seconds, n - 1, first)
  }

  /** A window, and a summary once it is closed, tells of its fault how often it was swallowed and when it
      was last seen, and a summary of what error and since when. */
  ghost predicate WindowTells(w: Window, ops: seq<Op>, seconds: int, n: nat)
    requires n <= |ops|
  {
    w.suppressed == Swallowed(ops, seconds, n, w.first) && w.lastSeen == LastSeen(ops, seconds, n, w.first)
  }

  ghost predicate SummaryTells(m: Summary, ops: seq<Op>, seconds: int, n: nat, x: Fault)
    requires n <= |ops|
  {
    && m.firstKey == FaultKey(x.origin, x.at) && m.signature == Signature(x.origin, x.errorType, x.digest) && m.startedAt == x.at
    && m.suppressed == Swallowed(ops, seconds, n, x) > 0 && m.lastSeen == LastSeen(ops, seconds, n, x)
  }

  ghost predicate Tells(s: State, ops: seq<Op>, seconds: int, n: nat)
    requires n <= |ops|
  {
    && (forall w :: w in s.windows ==> WindowTells(w, ops, seconds, n))
    && (forall m :: m in s.summaries ==> exists x :: x in s.faults && SummaryTells(m, ops, seconds, n, x))
  }

  /** An operation moves the count and the time of the fault whose window swallows it, and no other's. */
  lemma OneMoreSeen(ops: seq<Op>, seconds: int, n: nat, x: Fault)
    requires n < |ops|
    ensures var mine := Owner(At(ops, seconds, n), ops[n], seconds) == Some(x);
            && Swallowed(ops, seconds, n + 1, x) == Swallowed(ops, seconds, n, x) + (if mine then 1 else 0)
            && LastSeen(ops, seconds, n + 1, x) == if mine then ops[n].fault.at else LastSeen(ops, seconds, n, x)
  {
    hide Owner, At;
  }

  lemma {:induction false} NotSeenAgain(ops: seq<Op>, seconds: int, n: nat, x: Fault)
    requires n <= |ops| && Swallowed(ops, seconds, n, x) == 0
    ensures LastSeen(ops, seconds, n, x) == x.at
  {
    hide Owner, At;
    if n > 0 { NotSeenAgain(ops, seconds, n - 1, x); }
  }

  lemma TellsUnswallowed(s: State, ops: seq<Op>, seconds: int, n: nat)
    requires n < |ops| && s == At(ops, seconds, n) && Tells(s, ops, seconds, n) && Owner(s, ops[n], seconds).None?
    ensures Tells(s, ops, seconds, n + 1)
  {
    forall x ensures Swallowed(ops, seconds, n + 1, x) == Swallowed(ops, seconds, n, x)
                     && LastSeen(ops, seconds, n + 1, x) == LastSeen(ops, seconds, n, x)
    {
      OneMoreSeen(ops, seconds, n, x);
    }
    hide Swallowed, LastSeen, At, Owner;
    forall m | m in s.summaries ensures exists x :: x in s.faults && SummaryTells(m, ops, seconds, n + 1, x) {
      var x :| x in s.faults && SummaryTells(m, ops, seconds, n, x);
      assert SummaryTells(m, ops, seconds, n + 1, x);
    }
  }

  lemma ClosedTells(s: State, w: Window, rest: seq<Window>, ops: seq<Op>, seconds: int, n: nat)
    requires n <= |ops| && Tells(s, ops, seconds, n) && w in s.windows && w.first in s.faults
    requires forall v :: v in rest ==> v in s.windows
    ensures Tells(Summarized(s.(windows := rest), w), ops, seconds, n)
  {
    hide Swallowed, LastSeen;
    var t := Summarized(s.(windows := rest), w);
    if w.suppressed > 0 { assert SummaryTells(SummaryOf(w), ops, seconds, n, w.first); }
    assert forall m :: m in t.summaries ==> m in s.summaries || (m == SummaryOf(w) && w.suppressed > 0);
  }

  lemma SwallowTells(s: State, ops: seq<Op>, seconds: int, n: nat)
    requires n < |ops| && s == At(ops, seconds, n) && Kept(s) && Tells(s, ops, seconds, n)
    requires Owner(s, ops[n], seconds).Some?
    ensures Tells(Submitted(s, ops[n].fault, seconds), ops, seconds, n + 1)
  {
    var f, first := ops[n].fault, Owner(s, ops[n], seconds).value;
    var i, t := Find(s.windows, SignatureOf(f)).value, Submitted(s, f, seconds);
    assert Owner(s, ops[n], seconds) == Some(s.windows[i].first);
    forall x ensures Swallowed(ops, seconds, n + 1, x) == Swallowed(ops, seconds, n, x) + (if x == first then 1 else 0)
                     && LastSeen(ops, seconds, n + 1, x) == if x == first then f.at else LastSeen(ops, seconds, n, x)
    {
      OneMoreSeen(ops, seconds, n, x);
    }
    hide Swallowed, LastSeen, At, Owner, Find;
    assert s.windows[i] in s.windows;
    forall k | 0 <= k < |t.windows| ensures WindowTells(t.windows[k], ops, seconds, n + 1) {
      assert s.windows[k] in s.windows;
      if k != i { assert SignatureOf(s.windows[k].first) != SignatureOf(s.windows[i].first); }
    }
    forall m | m in t.summaries ensures exists x :: x in t.faults && SummaryTells(m, ops, seconds, n + 1, x) {
      var x :| x in s.faults && SummaryTells(m, ops, seconds, n, x);
      var k :| 0 <= k < |s.summaries| && s.summaries[k] == m;
      assert x != first;
      assert SummaryTells(m, ops, seconds, n + 1, x);
    }
  }

  lemma OpenedTells(s: State, f: Fault, ops: seq<Op>, seconds: int, n: nat)
    requires n <= |ops| && Tells(s, ops, seconds, n) && Swallowed(ops, seconds, n, f) == 0
    ensures Tells(Opened(s, f), ops, seconds, n)
  {
    NotSeenAgain(ops, seconds, n, f);
    hide Swallowed, LastSeen;
    assert WindowTells(Window(f, 0, f.at), ops, seconds, n);
    var t := Opened(s, f);
    assert forall x :: x in s.faults ==> x in t.faults;
  }

  lemma {:induction false} FlushTells(s: State, n: nat, ops: seq<Op>, seconds: int, k: nat)
    requires k <= |ops| && n <= |s.windows| && Kept(s) && Tells(s, ops, seconds, k)
    ensures Tells(FlushedTo(s, n), ops, seconds, k)
  {
    hide Tells, Kept;
    if n == 0 {
      assert FlushedTo(s, 0) == s;
    } else {
      FlushTells(s, n - 1, ops, seconds, k);
      OneMoreFlushed(s, n, ops, seconds, k);
    }
  }

  lemma OneMoreFlushed(s: State, n: nat, ops: seq<Op>, seconds: int, k: nat)
    requires k <= |ops| && 0 < n <= |s.windows| && Kept(s) && Tells(FlushedTo(s, n - 1), ops, seconds, k)
    ensures Tells(FlushedTo(s, n), ops, seconds, k)
  {
    hide Tells, Summarized, KeysDiffer, SummariesKept, Tally;
    FlushKeeps(s, n - 1);
    var t := FlushedTo(s, n - 1);
    assert t.windows[0] == s.windows[n - 1] && t.windows[0] in t.windows && t.windows[1..] == s.windows[n..];
    SummarizedIgnoresWindows(t, s.windows[n - 1], s.windows[n..]);
    ClosedTells(t, s.windows[n - 1], s.windows[n..], ops, seconds, k);
  }

  /** At every moment of every history windows and summaries tell the truth about their faults. */
  lemma {:induction false} TellsThroughout(ops: seq<Op>, seconds: int, n: nat)
    requires DistinctKeys(ops) && n <= |ops|
    ensures Tells(At(ops, seconds, n), ops, seconds, n)
  {
    hide Tells, DistinctKeys, After, Kept, FromOps;
    if n == 0 {
      TellsAtFirst(ops, seconds);
    } else {
      TellsThroughout(ops, seconds, n - 1);
      HistoryKeeps(ops, seconds, n - 1);
      TellsStep(ops, seconds, n - 1);
    }
  }

  lemma TellsAtFirst(ops: seq<Op>, seconds: int)
    ensures Tells(At(ops, seconds, 0), ops, seconds, 0)
  {
  }

  lemma TellsStep(ops: seq<Op>, seconds: int, n: nat)
    requires DistinctKeys(ops) && n < |ops| && Kept(At(ops, seconds, n)) && Tells(At(ops, seconds, n), ops, seconds, n)
    ensures Tells(At(ops, seconds, n + 1), ops, seconds, n + 1)
  {
    var s, op := At(ops, seconds, n), ops[n];
    OneStep(ops, seconds, n);
    hide Tells, At, DistinctKeys, FlushedTo;
    if Owner(s, op, seconds).Some? {
      SwallowTells(s, ops, seconds, n);
    } else {
      TellsUnswallowed(s, ops, seconds, n);
      match op
      case FlushNow => FlushTells(s, |s.windows|, ops, seconds, n + 1);
      case Submit(f) =>
        OneMoreSeen(ops, seconds, n, f);
        NotSwallowedByLater(ops, seconds, n, n);
        StartTells(s, f, ops, seconds, n + 1);
    }
  }

  lemma StartTells(s: State, f: Fault, ops: seq<Op>, seconds: int, n: nat)
    requires n <= |ops| && Kept(s) && Tells(s, ops, seconds, n) && Owner(s, Submit(f), seconds).None?
    requires Swallowed(ops, seconds, n, f) == 0
    ensures Tells(Submitted(s, f, seconds), ops, seconds, n)
  {
    hide Tells, Swallowed, KeysDiffer, SummariesKept, Summarized, Opened;
    var found := Find(s.windows, SignatureOf(f));
    if found.None? {
      OpenedTells(s, f, ops, seconds, n);
    } else {
      var i := found.value;
      var rest := s.windows[..i] + s.windows[i + 1..];
      ClosedTells(s, s.windows[i], rest, ops, seconds, n);
      OpenedTells(Summarized(s.(windows := rest), s.windows[i]), f, ops, seconds, n);
    }
  }
}
