/** Reading the newest fleet preflight (`orchestration/fleet_readiness.py`): which one counts, how old
    it may be, and when its failures still allow a degraded run. */
module FleetReadiness {
  import opened Options
  import opened Dispatch

  /** A FleetPreflight node. `checkedAt` is None when the text is no timezone-aware instant; times are
      in seconds. */
  datatype Preflight = Preflight(key: string, checkedAt: Option<int>, checkedText: string, passed: bool, failures: seq<string>)

  datatype Reading = Reading(readiness: Readiness, key: string, checkedAt: string)

  // ----- degradable failures -------------------------------------------------------------------

  /** `s.split(":", most)`. */
  function SplitColon(s: string, most: nat): (parts: seq<string>)
    ensures parts != []
  {
    var i := FirstColon(s);
    if most == 0 || i == |s| then [s] else [s[..i]] + SplitColon(s[i + 1..], most - 1)
  }

  function FirstColon(s: string): (i: nat)
    ensures i <= |s| && ':' !in s[..i] && (i < |s| ==> s[i] == ':')
  {
    if s == [] || s[0] == ':' then 0
    else
      var i := FirstColon(s[1..]);
      assert s[..i + 1] == [s[0]] + s[1..][..i];
      i + 1
  }

  predicate IsDegradableKind(kind: string) { kind in {"unrecoverable", "unexpected", "transient"} }

  predicate IsDegradable(failure: string, agents: set<string>) {
    var parts := SplitColon(failure, 3);
    && |parts| == 4
    && IsDegradableKind(parts[0]) && parts[1] in agents && parts[2] != "" && parts[3] != ""
  }

  /** The text of a failure of `agent`: kind, agent, check and reason, the reason in free form. */
  function FailureText(kind: string, agent: string, check: string, reason: string): string {
    Joined(kind, Joined(agent, Joined(check, reason)))
  }

  function Joined(a: string, b: string): string { a + ":" + b }

  lemma {:induction false} FirstColonIs(a: string, b: string)
    requires ':' !in a
    ensures FirstColon(a + ":" + b) == |a|
  {
    if a == [] {
      assert (a + ":" + b)[0] == ':';
    } else {
      FirstColonIs(a[1..], b);
      assert (a + ":" + b)[1..] == a[1..] + ":" + b;
      assert a[0] in a;
    }
  }

  lemma SplitHead(a: string, b: string, most: nat)
    requires ':' !in a && most > 0
    ensures SplitColon(Joined(a, b), most) == [a] + SplitColon(b, most - 1)
  {
    var s := a + ":" + b;
    FirstColonIs(a, b);
    assert s[..|a|] == a && s[|a| + 1..] == b;
  }

  /** Splitting gives back what was joined. */
  lemma SplitIsJoined(s: string, most: nat) returns (rest: string)
    requires |SplitColon(s, most)| > 1
    ensures var parts := SplitColon(s, most);
            most > 0 && ':' !in parts[0] && s == Joined(parts[0], rest) && parts[1..] == SplitColon(rest, most - 1)
  {
    var i := FirstColon(s);
    rest := s[i + 1..];
    assert s == s[..i] + ":" + rest;
  }

  ghost predicate ReadsAs(failure: string, agents: set<string>, kind: string, agent: string, check: string, reason: string) {
    && failure == FailureText(kind, agent, check, reason)
    && IsDegradableKind(kind) && agent in agents && check != "" && reason != ""
    && ':' !in agent && ':' !in check
  }

  lemma DegradableReads(failure: string, agents: set<string>) returns (kind: string, agent: string, check: string, reason: string)
    requires IsDegradable(failure, agents)
    ensures ReadsAs(failure, agents, kind, agent, check, reason)
  {
    var parts := SplitColon(failure, 3);
    hide SplitColon, Joined, IsDegradableKind;
    var rest := SplitIsJoined(failure, 3);
    var last := SplitIsJoined(rest, 2);
    var end := SplitIsJoined(last, 1);
    NoSplit(end);
    kind, agent, check, reason := parts[0], parts[1], parts[2], parts[3];
  }

  lemma NoSplit(s: string)
    ensures SplitColon(s, 0) == [s]
  {
  }

  lemma ReadsDegradable(failure: string, agents: set<string>, kind: string, agent: string, check: string, reason: string)
    requires ReadsAs(failure, agents, kind, agent, check, reason)
    ensures IsDegradable(failure, agents)
  {
    hide SplitColon, Joined, IsDegradableKind;
    KindHasNoColon(kind);
    var last := Joined(check, reason);
    SplitHead(check, reason, 1);
    SplitHead(agent, last, 2);
    SplitHead(kind, Joined(agent, last), 3);
    NoSplit(reason);
    assert SplitColon(failure, 3) == [kind, agent, check, reason];
  }

  /** A failure is degradable exactly when it reads as kind, declared agent, nonempty check and
      nonempty reason; a reason may itself hold colons. */
  lemma DegradableExactly(failure: string, agents: set<string>)
    ensures IsDegradable(failure, agents) <==>
      exists kind, agent, check, reason :: ReadsAs(failure, agents, kind, agent, check, reason)
  {
    hide IsDegradable, ReadsAs;
    if IsDegradable(failure, agents) {
      var kind, agent, check, reason := DegradableReads(failure, agents);
    }
    forall kind, agent, check, reason | ReadsAs(failure, agents, kind, agent, check, reason)
      ensures IsDegradable(failure, agents)
    {
      ReadsDegradable(failure, agents, kind, agent, check, reason);
    }
  }

  lemma KindHasNoColon(kind: string)
    requires IsDegradableKind(kind)
    ensures ':' !in kind
  {
  }

  // ----- the newest preflight ------------------------------------------------------------------

  /** The first listed of those checked last. */
  ghost predicate IsNewest(nodes: seq<Preflight>, i: nat) {
    && i < |nodes| && nodes[i].checkedAt.Some?
    && (forall j :: 0 <= j < |nodes| && nodes[j].checkedAt.Some? ==> nodes[j].checkedAt.value <= nodes[i].checkedAt.value)
    && (forall j :: 0 <= j < i && nodes[j].checkedAt.Some? ==> nodes[j].checkedAt.value < nodes[i].checkedAt.value)
  }

  predicate AllDegradable(failures: seq<string>, agents: set<string>) {
    failures != [] && agents != {} && forall i :: 0 <= i < |failures| ==> IsDegradable(failures[i], agents)
  }

  /** What the newest preflight says to a dispatcher at `now`. */
  function Interpreted(p: Preflight, now: int, maxAgeMinutes: int, agents: set<string>): Reading
    requires p.checkedAt.Some?
  {
    if now - p.checkedAt.value > 60 * maxAgeMinutes then Reading(Readiness(Unknown, []), p.key, p.checkedText)
    else
      var state := if p.passed then Ready else if AllDegradable(p.failures, agents) then Degraded else Failing;
      Reading(Readiness(state, p.failures), p.key, p.checkedText)
  }

  /** A failure whose text names a degradable kind, a declared agent, a check and a reason. */
  ghost predicate IsAgentFailure(failure: string, agents: set<string>) {
    exists kind, agent, check, reason :: ReadsAs(failure, agents, kind, agent, check, reason)
  }

  /** `r` reports the preflight `p`: by its own key and text; unknown and without failures once it is
      older than the limit, else with its failures, and ready exactly when it passed, degraded exactly
      when each of its failures, and there is one, is an agent's that may run degraded. */
  ghost predicate Reports(r: Reading, p: Preflight, now: int, maxAgeMinutes: int, agents: set<string>)
    requires p.checkedAt.Some?
  {
    var recent := now <= p.checkedAt.value + 60 * maxAgeMinutes;
    && r.key == p.key && r.checkedAt == p.checkedText
    && r.readiness.failures == (if recent then p.failures else [])
    && (r.readiness.state == Unknown <==> !recent)
    && (r.readiness.state == Ready <==> recent && p.passed)
    && (r.readiness.state == Degraded <==>
          && recent && !p.passed && p.failures != [] && agents != {}
          && forall i :: 0 <= i < |p.failures| ==> IsAgentFailure(p.failures[i], agents))
  }

  lemma InterpretedReports(p: Preflight, now: int, maxAgeMinutes: int, agents: set<string>)
    requires p.checkedAt.Some?
    ensures Reports(Interpreted(p, now, maxAgeMinutes, agents), p, now, maxAgeMinutes, agents)
  {
    hide IsDegradable, ReadsAs;
    forall i | 0 <= i < |p.failures| ensures IsDegradable(p.failures[i], agents) <==> IsAgentFailure(p.failures[i], agents) {
      DegradableExactly(p.failures[i], agents);
    }
  }

  /** `fleet_readiness`. */
  method ReadFleet(nodes: seq<Preflight>, now: int, maxAgeMinutes: int, agents: set<string>) returns (r: Reading)
    ensures (forall i :: 0 <= i < |nodes| ==> nodes[i].checkedAt.None?) ==> r == Reading(Readiness(Unknown, []), "", "")
    ensures (exists i :: 0 <= i < |nodes| && nodes[i].checkedAt.Some?) ==>
      exists i: nat :: IsNewest(nodes, i) && Reports(r, nodes[i], now, maxAgeMinutes, agents)
  {
    var latest: Option<nat> := None;
    for k := 0 to |nodes|
      invariant latest.None? ==> forall i :: 0 <= i < k ==> nodes[i].checkedAt.None?
      invariant latest.Some? ==> latest.value < k && IsNewest(nodes[..k], latest.value)
    {
      if nodes[k].checkedAt.Some?
         && (latest.None? || nodes[k].checkedAt.value > nodes[latest.value].checkedAt.value) {
        latest := Some(k);
      }
    }
    assert nodes[..|nodes|] == nodes;
    if latest.None? { return Reading(Readiness(Unknown, []), "", ""); }
    InterpretedReports(nodes[latest.value], now, maxAgeMinutes, agents);
    return Interpreted(nodes[latest.value], now, maxAgeMinutes, agents);
  }
}
