/** Collapsing a storm of one fault into its first node and a summary (`kernel/fault_graph.py`,
    `fault_collapse.py`), and counting it back (`fault_query.py`). Node keys and signatures are the
    tuples their texts are built from; the message digest is part of the fault. */
module FaultCollapse {
  import opened Options

  datatype Origin = Origin(agent: string, mod: string, capability: string)

  /** `detail` stands for the properties that are in no key: severity, traceback, context. */
  datatype Fault = Fault(origin: Origin, at: int, errorType: string, digest: string, detail: string)

  datatype Signature = Signature(origin: Origin, errorType: string, digest: string)

  function SignatureOf(f: Fault): Signature { Signature(f.origin, f.errorType, f.digest) }

  /** The key of the first fault's node. */
  datatype FaultKey = FaultKey(origin: Origin, at: int)

  function KeyOf(f: Fault): FaultKey { FaultKey(f.origin, f.at) }

  datatype Window = Window(first: Fault, suppressed: nat, lastSeen: int)

  /** A FaultSuppression node, keyed by signature and window start. */
  datatype Summary = Summary(signature: Signature, startedAt: int, firstKey: FaultKey, suppressed: nat, lastSeen: int)

  function SummaryOf(w: Window): Summary {
    Summary(SignatureOf(w.first), w.first.at, KeyOf(w.first), w.suppressed, w.lastSeen)
  }

  predicate Within(first: Fault, f: Fault, seconds: int) { 0 <= f.at - first.at <= seconds }

  /** Open windows, fault nodes and summary nodes, each in insertion order; `refused` once a merge
      met a node of the same key with other properties. */
  datatype State = State(windows: seq<Window>, faults: seq<Fault>, summaries: seq<Summary>, refused: bool)

  function Find(windows: seq<Window>, signature: Signature): (r: Option<nat>)
    ensures r.Some? ==> r.value < |windows| && SignatureOf(windows[r.value].first) == signature
    ensures r.None? ==> forall i :: 0 <= i < |windows| ==> SignatureOf(windows[i].first) != signature
  {
    if windows == [] then None
    else if SignatureOf(windows[|windows| - 1].first) == signature then Some(|windows| - 1)
    else Find(windows[..|windows| - 1], signature)
  }

  predicate SameSummaryKey(a: Summary, b: Summary) { a.signature == b.signature && a.startedAt == b.startedAt }

  /** `_flush` once the window is popped: nothing is written for a window that suppressed nothing. */
  function Summarized(s: State, w: Window): State {
    if w.suppressed == 0 then s
    else if exists i :: 0 <= i < |s.summaries| && SameSummaryKey(s.summaries[i], SummaryOf(w))
    then s.(refused := s.refused || SummaryOf(w) !in s.summaries)
    else s.(summaries := s.summaries + [SummaryOf(w)])
  }

  /** `_write_first`. */
  function Opened(s: State, f: Fault): State {
    var windows := s.windows + [Window(f, 0, f.at)];
    if exists i :: 0 <= i < |s.faults| && KeyOf(s.faults[i]) == KeyOf(f)
    then if f in s.faults then s.(windows := windows) else s.(refused := true)
    else s.(windows := windows, faults := s.faults + [f])
  }

  /** `submit`, up to the first merge that is refused. */
  function Submitted(s: State, f: Fault, seconds: int): State {
    match Find(s.windows, SignatureOf(f))
    case None => Opened(s, f)
    case Some(i) =>
      var w := s.windows[i];
      if Within(w.first, f, seconds)
      then s.(windows := s.windows[i := w.(suppressed := w.suppressed + 1, lastSeen := f.at)])
      else
        var t := Summarized(s.(windows := s.windows[..i] + s.windows[i + 1..]), w);
        if t.refused then t else Opened(t, f)
  }

  function FlushedTo(s: State, n: nat): State
    requires n <= |s.windows|
  {
    if n == 0 then s.(windows := s.windows[0..])
    else
      var t := FlushedTo(s, n - 1);
      if t.refused then t else Summarized(t, s.windows[n - 1]).(windows := s.windows[n..])
  }

  /** `flush`: every open window in turn. */
  function Flushed(s: State): State { FlushedTo(s, |s.windows|) }

  // ----- the query -----------------------------------------------------------------------------

  /** `_suppression_counts` then `get(key, (1, 0))`: the last summary of a first fault wins. */
  function Occurrences(summaries: seq<Summary>, key: FaultKey): nat {
    if summaries == [] then 1
    else if summaries[|summaries| - 1].firstKey == key then summaries[|summaries| - 1].suppressed + 1
    else Occurrences(summaries[..|summaries| - 1], key)
  }

  predicate InRange(f: Fault, start: int, end: Option<int>) { start <= f.at && (end.Some? ==> f.at < end.value) }

  function CountInWindow(faults: seq<Fault>, summaries: seq<Summary>, start: int, end: Option<int>): nat {
    if faults == [] then 0
    else CountInWindow(faults[..|faults| - 1], summaries, start, end)
         + if InRange(faults[|faults| - 1], start, end) then Occurrences(summaries, KeyOf(faults[|faults| - 1])) else 0
  }

  /** `fault_count_in_window`, with the dict of counts built first. */
  method FaultCountInWindow(faults: seq<Fault>, summaries: seq<Summary>, start: int, end: Option<int>) returns (total: nat)
    ensures total == CountInWindow(faults, summaries, start, end)
  {
    var counts: map<FaultKey, nat> := map[];
    for i := 0 to |summaries|
      invariant forall key :: Occurrences(summaries[..i], key) == if key in counts then counts[key] else 1
    {
      assert summaries[..i + 1][..i] == summaries[..i];
      counts := counts[summaries[i].firstKey := summaries[i].suppressed + 1];
    }
    assert summaries[..|summaries|] == summaries;
    total := 0;
    for i := 0 to |faults|
      invariant total == CountInWindow(faults[..i], summaries, start, end)
    {
      assert faults[..i + 1][..i] == faults[..i];
      var f := faults[i];
      if InRange(f, start, end) {
        total := total + if KeyOf(f) in counts then counts[KeyOf(f)] else 1;
      }
    }
    assert faults[..|faults|] == faults;
  }

  // ----- the sink ------------------------------------------------------------------------------

  class GraphFaultSink {
    const seconds: int
    var windows: seq<Window>
    var faults: seq<Fault>
    var summaries: seq<Summary>
    var refused: bool

    constructor (seconds: int)
      ensures Value() == State([], [], [], false) && this.seconds == seconds
    {
      this.seconds := seconds;
      windows, faults, summaries, refused := [], [], [], false;
    }

    function Value(): State
      reads this
    {
      State(windows, faults, summaries, refused)
    }

    method MergeSummary(w: Window)
      modifies this`summaries, this`refused
      ensures Value() == Summarized(old(Value()), w)
    {
      if w.suppressed == 0 { return; }
      var summary := SummaryOf(w);
      if exists i :: 0 <= i < |summaries| && SameSummaryKey(summaries[i], summary) {
        refused := refused || summary !in summaries;
      } else {
        summaries := summaries + [summary];
      }
    }

    method WriteFirst(f: Fault)
      modifies this`windows, this`faults, this`refused
      ensures Value() == Opened(old(Value()), f)
    {
      if exists i :: 0 <= i < |faults| && KeyOf(faults[i]) == KeyOf(f) {
        if f !in faults {
          refused := true;
          return;
        }
      } else {
        faults := faults + [f];
      }
      windows := windows + [Window(f, 0, f.at)];
    }

    method Submit(f: Fault)
      requires !refused
      modifies this
      ensures Value() == Submitted(old(Value()), f, seconds)
    {
      var found := Find(windows, SignatureOf(f));
      if found.Some? {
        var i := found.value;
        var w := windows[i];
        if Within(w.first, f, seconds) {
          windows := windows[i := w.(suppressed := w.suppressed + 1, lastSeen := f.at)];
          return;
        }
        windows := windows[..i] + windows[i + 1..];
        MergeSummary(w);
        if refused { return; }
      }
      WriteFirst(f);
    }

    method Flush()
      requires !refused
      modifies this
      ensures Value() == Flushed(old(Value()))
    {
      ghost var s := Value();
      var all := windows;
      for i := 0 to |all|
        invariant Value() == FlushedTo(s, i) && !refused && windows == all[i..]
      {
        var w := all[i];
        windows := all[i + 1..];
        MergeSummary(w);
        if refused {
          StopsAtRefusal(s, i + 1);
          return;
        }
      }
    }
  }

  lemma {:induction false} StopsAtRefusalFrom(s: State, i: nat, n: nat)
    requires i <= n <= |s.windows| && FlushedTo(s, i).refused
    ensures FlushedTo(s, n) == FlushedTo(s, i)
  {
    if i < n { StopsAtRefusalFrom(s, i, n - 1); }
  }

  lemma StopsAtRefusal(s: State, i: nat)
    requires i <= |s.windows| && FlushedTo(s, i).refused
    ensures Flushed(s) == FlushedTo(s, i)
  {
    StopsAtRefusalFrom(s, i, |s.windows|);
  }
}
