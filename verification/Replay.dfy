/** Replaying many debates one round at a time through a batch gateway
    (`orchestration/replay_types.py`, `replay_rounds.py`, `replay_batch.py`). The gateway answers
    in any order, and may drop, repeat or misaddress answers; `customId` stands for the digest
    that addresses a turn. */
module Replay {
  import opened Options
  import opened Debate

  datatype Arm = Arm(name: string, model: string, effort: string, maxRounds: int, maxTokens: int)

  datatype Subject = Subject(pmRun: string, ticker: string, proposition: Proposition)

  datatype ReplayKey = ReplayKey(pmRun: string, ticker: string, repeat: int, arm: string, role: Role, number: int)

  datatype Request = Request(customId: string, model: string, maxTokens: int, effort: string, prompt: Prompt)

  datatype Reply = Reply(customId: string, status: string, text: string)

  datatype Failure = MissingResult | Status(status: string) | EmptyTurn | UnreadableVerdict

  /** The value of one `DebateState`. */
  datatype DebateValue = DebateValue(
    subject: Subject, repeat: int, arm: Arm, steps: seq<Step>,
    transcript: seq<Turn>, verdict: Option<Verdict>, failure: Option<Failure>)

  datatype World = World(
    customId: ReplayKey -> string,
    json: string -> Parsed,
    gateway: (nat, seq<Request>) -> seq<Reply>)

  /** `Arm.steps`: the arm's turns in order, judge last. */
  function ArmSteps(arm: Arm): seq<Step> {
    ArguingSteps(Max(1, arm.maxRounds)) + [Step(Judge, 0)]
  }

  function Rounds(arms: seq<Arm>): nat {
    if arms == [] then 0 else Max(Max(1, arms[0].maxRounds), Rounds(arms[1..]))
  }

  /** `plan_steps`: one submission order for every arm, judge last. */
  function PlanSteps(arms: seq<Arm>): seq<Step> {
    if arms == [] then [] else ArguingSteps(Rounds(arms)) + [Step(Judge, 0)]
  }

  function Started(subject: Subject, repeat: int, arm: Arm): DebateValue {
    DebateValue(subject, repeat, arm, ArmSteps(arm), [], None, None)
  }

  function KeyOf(d: DebateValue, step: Step): ReplayKey {
    ReplayKey(d.subject.pmRun, d.subject.ticker, d.repeat, d.arm.name, step.role, step.number)
  }

  predicate Participates(d: DebateValue, step: Step) {
    d.failure.None? && step in d.steps
  }

  function RequestOf(w: World, d: DebateValue, step: Step): Request {
    Request(w.customId(KeyOf(d, step)), d.arm.model, d.arm.maxTokens, d.arm.effort,
            Prompt(step.role, d.subject.proposition, d.transcript))
  }

  function Requests(w: World, ds: seq<DebateValue>, step: Step): seq<Request> {
    if ds == [] then []
    else Requests(w, ds[..|ds| - 1], step)
         + if Participates(ds[|ds| - 1], step) then [RequestOf(w, ds[|ds| - 1], step)] else []
  }

  predicate SameTurnTwice(requests: seq<Request>) {
    exists i, j :: 0 <= i < j < |requests| && requests[i].customId == requests[j].customId
  }

  predicate HasStray(requests: seq<Request>, replies: seq<Reply>) {
    exists i :: 0 <= i < |replies| && forall j :: 0 <= j < |requests| ==> requests[j].customId != replies[i].customId
  }

  /** The dict of answers keeps the last reply of an id. */
  function Lookup(replies: seq<Reply>, id: string): Option<Reply> {
    if replies == [] then None
    else if replies[|replies| - 1].customId == id then Some(replies[|replies| - 1])
    else Lookup(replies[..|replies| - 1], id)
  }

  /** `_apply_one`. */
  function Applied(d: DebateValue, step: Step, reply: Option<Reply>, json: string -> Parsed): DebateValue {
    match reply
    case None => d.(failure := Some(MissingResult))
    case Some(r) =>
      if r.status != "succeeded" then d.(failure := Some(Status(r.status)))
      else if Strip(r.text) == "" then d.(failure := Some(EmptyTurn))
      else if step.role == Judge then
        match ParseVerdict(Strip(r.text), json)
        case Ruled(v) => d.(verdict := Some(v))
        case Unreadable => d.(failure := Some(UnreadableVerdict))
      else d.(transcript := d.transcript + [Turn(step.role, step.number, Strip(r.text))])
  }

  function Answer(w: World, d: DebateValue, step: Step, replies: seq<Reply>): Option<Reply> {
    Lookup(replies, w.customId(KeyOf(d, step)))
  }

  /** `apply_results`. */
  function RoundApplied(w: World, ds: seq<DebateValue>, step: Step, replies: seq<Reply>): (r: seq<DebateValue>)
    ensures |r| == |ds|
  {
    seq(|ds|, i requires 0 <= i < |ds| =>
      if Participates(ds[i], step) then Applied(ds[i], step, Answer(w, ds[i], step, replies), w.json) else ds[i])
  }

  datatype Outcome =
    | Replayed(states: seq<DebateValue>, rounds: nat, sent: nat)
    | PlannedTwice(step: Step)
    | StrayAnswer(step: Step)

  /** The loop of `replay_debates` over the remaining plan. */
  function Run(w: World, ds: seq<DebateValue>, plan: seq<Step>, rounds: nat, sent: nat): Outcome
    decreases |plan|
  {
    if plan == [] then Replayed(ds, rounds, sent)
    else
      var requests := Requests(w, ds, plan[0]);
      if SameTurnTwice(requests) then PlannedTwice(plan[0])
      else if requests == [] then Run(w, ds, plan[1..], rounds, sent)
      else
        var replies := w.gateway(rounds, requests);
        if HasStray(requests, replies) then StrayAnswer(plan[0])
        else Run(w, RoundApplied(w, ds, plan[0], replies), plan[1..], rounds + 1, sent + |requests|)
  }

  /** What the gateway returned in each round that was submitted. */
  ghost function Log(w: World, ds: seq<DebateValue>, plan: seq<Step>, rounds: nat): map<Step, seq<Reply>>
    decreases |plan|
  {
    if plan == [] then map[]
    else
      var requests := Requests(w, ds, plan[0]);
      if requests == [] then Log(w, ds, plan[1..], rounds)
      else
        var replies := w.gateway(rounds, requests);
        Log(w, RoundApplied(w, ds, plan[0], replies), plan[1..], rounds + 1)[plan[0] := replies]
  }

  // ----- the methods ---------------------------------------------------------------------------

  class DebateState {
    const subject: Subject
    const repeat: int
    const arm: Arm
    const steps: seq<Step>
    var transcript: seq<Turn>
    var verdict: Option<Verdict>
    var failure: Option<Failure>

    constructor (subject: Subject, repeat: int, arm: Arm)
      ensures Value() == Started(subject, repeat, arm)
    {
      this.subject, this.repeat, this.arm, this.steps := subject, repeat, arm, ArmSteps(arm);
      transcript, verdict, failure := [], None, None;
    }

    function Value(): DebateValue
      reads this
    {
      DebateValue(subject, repeat, arm, steps, transcript, verdict, failure)
    }

    method ApplyOne(step: Step, reply: Option<Reply>, json: string -> Parsed)
      modifies this
      ensures Value() == Applied(old(Value()), step, reply, json)
    {
      if reply.None? { failure := Some(MissingResult); return; }
      if reply.value.status != "succeeded" { failure := Some(Status(reply.value.status)); return; }
      var text := Strip(reply.value.text);
      if text == "" { failure := Some(EmptyTurn); return; }
      if step.role == Judge {
        var ruling := ParseVerdict(text, json);
        if ruling.Ruled? { verdict := Some(ruling.verdict); } else { failure := Some(UnreadableVerdict); }
        return;
      }
      transcript := transcript + [Turn(step.role, step.number, text)];
    }
  }

  ghost predicate Shows(states: seq<DebateState>, ds: seq<DebateValue>)
    reads states
  {
    |states| == |ds| && forall i :: 0 <= i < |states| ==> states[i].Value() == ds[i]
  }

  ghost predicate Distinct(states: seq<DebateState>) {
    forall i, j :: 0 <= i < j < |states| ==> states[i] != states[j]
  }

  method ApplyResults(w: World, states: seq<DebateState>, step: Step, replies: seq<Reply>, ghost ds: seq<DebateValue>)
    requires Distinct(states) && Shows(states, ds)
    modifies states
    ensures Shows(states, RoundApplied(w, ds, step, replies))
  {
    ghost var after := RoundApplied(w, ds, step, replies);
    for i := 0 to |states|
      invariant forall j :: 0 <= j < |states| ==> states[j].Value() == if j < i then after[j] else ds[j]
    {
      if Participates(states[i].Value(), step) {
        states[i].ApplyOne(step, Answer(w, states[i].Value(), step, replies), w.json);
      }
    }
  }

  method RoundRequests(w: World, states: seq<DebateState>, step: Step, ghost ds: seq<DebateValue>) returns (requests: seq<Request>)
    requires Shows(states, ds)
    ensures requests == Requests(w, ds, step)
  {
    requests := [];
    for i := 0 to |states|
      invariant requests == Requests(w, ds[..i], step)
    {
      assert ds[..i + 1][..i] == ds[..i];
      if Participates(states[i].Value(), step) {
        requests := requests + [RequestOf(w, states[i].Value(), step)];
      }
    }
    assert ds[..|ds|] == ds;
  }

  /** Every subject by every repeat by every arm. */
  function Initial(subjects: seq<Subject>, arms: seq<Arm>, repeats: int): seq<DebateValue> {
    if subjects == [] then []
    else Initial(subjects[..|subjects| - 1], arms, repeats)
         + Repeated(subjects[|subjects| - 1], arms, Max(1, repeats))
  }

  function Repeated(subject: Subject, arms: seq<Arm>, repeats: nat): seq<DebateValue> {
    if repeats == 0 then [] else Repeated(subject, arms, repeats - 1) + Armed(subject, repeats, arms)
  }

  function Armed(subject: Subject, repeat: int, arms: seq<Arm>): seq<DebateValue> {
    if arms == [] then []
    else Armed(subject, repeat, arms[..|arms| - 1]) + [Started(subject, repeat, arms[|arms| - 1])]
  }

  method BuildStates(subjects: seq<Subject>, arms: seq<Arm>, repeats: int) returns (states: seq<DebateState>)
    ensures Distinct(states) && fresh(states)
    ensures Shows(states, Initial(subjects, arms, repeats))
  {
    states := [];
    for s := 0 to |subjects|
      invariant Distinct(states) && fresh(states)
      invariant Shows(states, Initial(subjects[..s], arms, repeats))
    {
      assert subjects[..s + 1][..s] == subjects[..s];
      var more := BuildRepeats(subjects[s], arms, Max(1, repeats));
      ShowsBoth(states, more, Initial(subjects[..s], arms, repeats), Repeated(subjects[s], arms, Max(1, repeats)));
      states := states + more;
    }
    assert subjects[..|subjects|] == subjects;
  }

  method BuildRepeats(subject: Subject, arms: seq<Arm>, repeats: nat) returns (states: seq<DebateState>)
    ensures Distinct(states) && fresh(states)
    ensures Shows(states, Repeated(subject, arms, repeats))
  {
    states := [];
    for r := 1 to repeats + 1
      invariant Distinct(states) && fresh(states)
      invariant Shows(states, Repeated(subject, arms, r - 1))
    {
      var more := BuildArms(subject, r, arms);
      ShowsBoth(states, more, Repeated(subject, arms, r - 1), Armed(subject, r, arms));
      states := states + more;
    }
  }

  lemma ShowsBoth(states: seq<DebateState>, more: seq<DebateState>, ds: seq<DebateValue>, es: seq<DebateValue>)
    requires Shows(states, ds) && Shows(more, es)
    ensures Shows(states + more, ds + es)
  {
  }

  method BuildArms(subject: Subject, repeat: int, arms: seq<Arm>) returns (states: seq<DebateState>)
    ensures Distinct(states) && fresh(states)
    ensures Shows(states, Armed(subject, repeat, arms))
  {
    states := [];
    for a := 0 to |arms|
      invariant Distinct(states) && fresh(states)
      invariant Shows(states, Armed(subject, repeat, arms[..a]))
    {
      assert arms[..a + 1][..a] == arms[..a];
      var state := new DebateState(subject, repeat, arms[a]);
      states := states + [state];
    }
    assert arms[..|arms|] == arms;
  }

  method ReplayDebates(w: World, subjects: seq<Subject>, arms: seq<Arm>, repeats: int)
    returns (r: Outcome)
    ensures r == Run(w, Initial(subjects, arms, repeats), PlanSteps(arms), 0, 0)
  {
    hide Requests, SameTurnTwice, HasStray, RoundApplied, Initial, PlanSteps;
    var states := BuildStates(subjects, arms, repeats);
    ghost var ds := Initial(subjects, arms, repeats);
    var plan := PlanSteps(arms);
    var rounds, sent := 0, 0;
    for k := 0 to |plan|
      invariant Distinct(states) && Shows(states, ds) && fresh(states)
      invariant rounds >= 0 && sent >= 0
      invariant Run(w, Initial(subjects, arms, repeats), plan, 0, 0) == Run(w, ds, plan[k..], rounds, sent)
    {
      var requests := RoundRequests(w, states, plan[k], ds);
      if SameTurnTwice(requests) { return PlannedTwice(plan[k]); }
      if requests != [] {
        var replies := w.gateway(rounds, requests);
        if HasStray(requests, replies) { return StrayAnswer(plan[k]); }
        ApplyResults(w, states, plan[k], replies, ds);
        ds := RoundApplied(w, ds, plan[k], replies);
        rounds, sent := rounds + 1, sent + |requests|;
      }
    }
    var values := seq(|states|, i requires 0 <= i < |states| reads states => states[i].Value());
    assert values == ds;
    return Replayed(values, rounds, sent);
  }
}
