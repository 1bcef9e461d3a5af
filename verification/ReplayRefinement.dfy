/** What the batched replay computes for each debate: the state the debate reaches when it is run
    alone against its own answers, and, when the gateway answers as a model would, the debate
    `deliberate` holds with that model. */
module ReplayRefinement {
  import opened Options
  import opened Debate
  import opened Replay

  // ----- alone against its own answers ---------------------------------------------------------

  /** The answer a log of rounds holds for a debate's own turn. */
  ghost function AnswerIn(w: World, d: DebateValue, step: Step, log: map<Step, seq<Reply>>): Option<Reply> {
    if step in log then Answer(w, d, step, log[step]) else None
  }

  /** One debate alone: its own steps in order, until it fails. */
  ghost function Solo(w: World, d: DebateValue, steps: seq<Step>, log: map<Step, seq<Reply>>): DebateValue
    decreases |steps|
  {
    if steps == [] || d.failure.Some? then d
    else Solo(w, Applied(d, steps[0], AnswerIn(w, d, steps[0], log), w.json), steps[1..], log)
  }

  /** The steps of `plan` that are the debate's own. */
  function Own(steps: seq<Step>, plan: seq<Step>): seq<Step> {
    if plan == [] then []
    else (if plan[0] in steps then [plan[0]] else []) + Own(steps, plan[1..])
  }

  predicate NoRepeats(plan: seq<Step>) {
    forall i, j :: 0 <= i < j < |plan| ==> plan[i] != plan[j]
  }

  lemma AppliedKeepsIdentity(d: DebateValue, step: Step, reply: Option<Reply>, json: string -> Parsed)
    ensures var r := Applied(d, step, reply, json);
            r.subject == d.subject && r.repeat == d.repeat && r.arm == d.arm && r.steps == d.steps
  {
  }

  /** A debate alone depends on nothing but its own answers. */
  lemma {:induction false} SoloDependsOnOwnAnswers(w: World, v: World, d: DebateValue, steps: seq<Step>,
                                                   log: map<Step, seq<Reply>>, other: map<Step, seq<Reply>>)
    requires w.json == v.json
    requires forall s :: s in steps ==> AnswerIn(w, d, s, log) == AnswerIn(v, d, s, other)
    ensures Solo(w, d, steps, log) == Solo(v, d, steps, other)
    decreases |steps|
  {
    if steps != [] && d.failure.None? {
      var next := Applied(d, steps[0], AnswerIn(w, d, steps[0], log), w.json);
      AppliedKeepsIdentity(d, steps[0], AnswerIn(w, d, steps[0], log), w.json);
      forall s | s in steps[1..] ensures AnswerIn(w, next, s, log) == AnswerIn(v, next, s, other) {
        assert AnswerIn(w, d, s, log) == AnswerIn(v, d, s, other);
      }
      SoloDependsOnOwnAnswers(w, v, next, steps[1..], log, other);
    }
  }

  lemma {:induction false} RequestIsSent(w: World, ds: seq<DebateValue>, step: Step, i: nat)
    requires i < |ds| && Participates(ds[i], step)
    ensures exists k :: 0 <= k < |Requests(w, ds, step)| && Requests(w, ds, step)[k] == RequestOf(w, ds[i], step)
  {
    var most := ds[..|ds| - 1];
    if i < |most| {
      assert most[i] == ds[i];
      RequestIsSent(w, most, step, i);
      var k :| 0 <= k < |Requests(w, most, step)| && Requests(w, most, step)[k] == RequestOf(w, ds[i], step);
      assert Requests(w, ds, step)[k] == RequestOf(w, ds[i], step);
    } else {
      var rs := Requests(w, ds, step);
      assert rs[|rs| - 1] == RequestOf(w, ds[i], step);
    }
  }

  lemma {:induction false} OwnIsInPlan(steps: seq<Step>, plan: seq<Step>)
    ensures forall s :: s in Own(steps, plan) ==> s in plan && s in steps
  {
    if plan != [] { OwnIsInPlan(steps, plan[1..]); }
  }

  lemma {:induction false} RunIsSolo(w: World, ds: seq<DebateValue>, plan: seq<Step>, rounds: nat, sent: nat, i: nat)
    requires i < |ds| && NoRepeats(plan) && Run(w, ds, plan, rounds, sent).Replayed?
    ensures var out := Run(w, ds, plan, rounds, sent).states;
            |out| == |ds| && out[i] == Solo(w, ds[i], Own(ds[i].steps, plan), Log(w, ds, plan, rounds))
    decreases |plan|
  {
    hide SameTurnTwice, HasStray, Requests, Applied, Answer;
    if plan != [] {
      var step, rest, d := plan[0], plan[1..], ds[i];
      var requests := Requests(w, ds, step);
      var mine := Own(d.steps, rest);
      assert forall k :: 0 <= k < |rest| ==> rest[k] == plan[k + 1] && rest[k] != step;
      if requests == [] {
        RunIsSolo(w, ds, rest, rounds, sent, i);
        if Participates(d, step) { RequestIsSent(w, ds, step, i); }
      } else {
        var replies := w.gateway(rounds, requests);
        var after := RoundApplied(w, ds, step, replies);
        RunIsSolo(w, after, rest, rounds + 1, sent + |requests|, i);
        AppliedKeepsIdentity(d, step, Answer(w, d, step, replies), w.json);
        OwnIsInPlan(d.steps, rest);
        SoloDependsOnOwnAnswers(w, w, after[i], mine, Log(w, after, rest, rounds + 1), Log(w, ds, plan, rounds));
        if step in d.steps { assert ([step] + mine)[1..] == mine; }
      }
      if step !in d.steps { assert Own(d.steps, plan) == mine; }
    }
  }

  // ----- the plan covers every arm -------------------------------------------------------------

  lemma {:induction false} InArguing(rounds: nat, s: Step)
    ensures s in ArguingSteps(rounds) <==> s.role != Judge && 1 <= s.number <= rounds
  {
    if rounds > 0 { InArguing(rounds - 1, s); }
  }

  lemma {:induction false} OwnOfAppended(steps: seq<Step>, a: seq<Step>, b: seq<Step>)
    ensures Own(steps, a + b) == Own(steps, a) + Own(steps, b)
  {
    if a == [] {
      assert a + b == b;
    } else {
      assert (a + b)[1..] == a[1..] + b;
      OwnOfAppended(steps, a[1..], b);
      var first := if a[0] in steps then [a[0]] else [];
      assert (a + b)[0] == a[0];
      assert first + (Own(steps, a[1..]) + Own(steps, b)) == (first + Own(steps, a[1..])) + Own(steps, b);
    }
  }

  lemma OwnPair(steps: seq<Step>, a: Step, b: Step)
    requires a in steps <==> b in steps
    ensures Own(steps, [a, b]) == if a in steps then [a, b] else []
  {
    assert [a, b][1..] == [b] && [b][1..] == [];
    assert Own(steps, [b]) == if b in steps then [b] else [];
  }

  lemma InArmSteps(mine: nat, s: Step)
    requires s.role != Judge
    ensures s in ArguingSteps(mine) + [Step(Judge, 0)] <==> 1 <= s.number <= mine
  {
    InArguing(mine, s);
  }

  lemma {:induction false} OwnArguing(mine: nat, all: nat)
    ensures var steps := ArguingSteps(mine) + [Step(Judge, 0)];
            Own(steps, ArguingSteps(all)) == ArguingSteps(if mine < all then mine else all)
  {
    var steps := ArguingSteps(mine) + [Step(Judge, 0)];
    if all > 0 {
      hide Own;
      OwnArguing(mine, all - 1);
      var a, b := Step(Defender, all), Step(Challenger, all);
      InArmSteps(mine, a);
      InArmSteps(mine, b);
      OwnPair(steps, a, b);
      OwnOfAppended(steps, ArguingSteps(all - 1), [a, b]);
      assert ArguingSteps(all) == ArguingSteps(all - 1) + [a, b];
    }
  }

  lemma {:induction false} RoundsCover(arms: seq<Arm>, arm: Arm)
    requires arm in arms
    ensures Max(1, arm.maxRounds) <= Rounds(arms)
  {
    if arms[0] != arm { RoundsCover(arms[1..], arm); }
  }

  lemma PlanCoversArm(arms: seq<Arm>, arm: Arm)
    requires arm in arms
    ensures Own(ArmSteps(arm), PlanSteps(arms)) == ArmSteps(arm)
  {
    var mine := Max(1, arm.maxRounds);
    RoundsCover(arms, arm);
    OwnArguing(mine, Rounds(arms));
    OwnOfAppended(ArmSteps(arm), ArguingSteps(Rounds(arms)), [Step(Judge, 0)]);
  }

  lemma {:induction false} PlanHasNoRepeats(arms: seq<Arm>)
    ensures NoRepeats(PlanSteps(arms))
  {
    if arms != [] {
      ArguingDistinct(Rounds(arms));
      forall s | s in ArguingSteps(Rounds(arms)) ensures s != Step(Judge, 0) { InArguing(Rounds(arms), s); }
      assert forall i :: 0 <= i < |ArguingSteps(Rounds(arms))| ==> ArguingSteps(Rounds(arms))[i] in ArguingSteps(Rounds(arms));
    }
  }

  lemma {:induction false} ArguingDistinct(rounds: nat)
    ensures NoRepeats(ArguingSteps(rounds))
  {
    if rounds > 0 {
      ArguingDistinct(rounds - 1);
      var most := ArguingSteps(rounds - 1);
      forall i | 0 <= i < |most| ensures most[i].number < rounds {
        assert most[i] in most;
        InArguing(rounds - 1, most[i]);
      }
    }
  }

  lemma {:induction false} InitialAreStarted(subjects: seq<Subject>, arms: seq<Arm>, repeats: int, i: nat)
    requires i < |Initial(subjects, arms, repeats)|
    ensures var d := Initial(subjects, arms, repeats)[i];
            d.subject in subjects && d.arm in arms && d == Started(d.subject, d.repeat, d.arm)
  {
    var most := Initial(subjects[..|subjects| - 1], arms, repeats);
    if i < |most| {
      InitialAreStarted(subjects[..|subjects| - 1], arms, repeats, i);
    } else {
      RepeatedAreStarted(subjects[|subjects| - 1], arms, Max(1, repeats), i - |most|);
    }
  }

  lemma {:induction false} RepeatedAreStarted(subject: Subject, arms: seq<Arm>, repeats: nat, i: nat)
    requires i < |Repeated(subject, arms, repeats)|
    ensures var d := Repeated(subject, arms, repeats)[i];
            d.subject == subject && d.arm in arms && d == Started(d.subject, d.repeat, d.arm)
  {
    var most := Repeated(subject, arms, repeats - 1);
    if i < |most| { RepeatedAreStarted(subject, arms, repeats - 1, i); }
    else { ArmedAreStarted(subject, repeats, arms, i - |most|); }
  }

  lemma {:induction false} ArmedAreStarted(subject: Subject, repeat: int, arms: seq<Arm>, i: nat)
    requires i < |Armed(subject, repeat, arms)|
    ensures var d := Armed(subject, repeat, arms)[i];
            d.subject == subject && d.arm in arms && d == Started(d.subject, d.repeat, d.arm)
  {
    var most := Armed(subject, repeat, arms[..|arms| - 1]);
    if i < |most| { ArmedAreStarted(subject, repeat, arms[..|arms| - 1], i); }
  }

  ghost function ReplayOf(w: World, subjects: seq<Subject>, arms: seq<Arm>, repeats: int): Outcome {
    Run(w, Initial(subjects, arms, repeats), PlanSteps(arms), 0, 0)
  }

  ghost function RunLog(w: World, subjects: seq<Subject>, arms: seq<Arm>, repeats: int): map<Step, seq<Reply>> {
    Log(w, Initial(subjects, arms, repeats), PlanSteps(arms), 0)
  }

  /** Every debate of a batched replay ends in the state it reaches alone: its own steps, in its
      own order, against the answers addressed to it. */
  lemma ReplayIsSolo(w: World, subjects: seq<Subject>, arms: seq<Arm>, repeats: int, i: nat)
    requires ReplayOf(w, subjects, arms, repeats).Replayed?
    requires i < |Initial(subjects, arms, repeats)|
    ensures var out, d := ReplayOf(w, subjects, arms, repeats).states, Initial(subjects, arms, repeats)[i];
            && |out| == |Initial(subjects, arms, repeats)|
            && out[i] == Solo(w, d, d.steps, RunLog(w, subjects, arms, repeats))
  {
    InitialAreStarted(subjects, arms, repeats, i);
    PlanHasNoRepeats(arms);
    PlanCoversArm(arms, Initial(subjects, arms, repeats)[i].arm);
    RunIsSolo(w, Initial(subjects, arms, repeats), PlanSteps(arms), 0, 0, i);
  }

  /** Two replays, of any two sets of debates and with any two gateways, leave a debate they share
      in the same state if they gave it the same answers: no other debate's failure, silence or
      presence can reach it. */
  lemma OthersDoNotMatter(w: World, v: World, subjects: seq<Subject>, arms: seq<Arm>, repeats: int,
                          others: seq<Subject>, otherArms: seq<Arm>, otherRepeats: int, i: nat, j: nat)
    requires ReplayOf(w, subjects, arms, repeats).Replayed? && i < |Initial(subjects, arms, repeats)|
    requires ReplayOf(v, others, otherArms, otherRepeats).Replayed? && j < |Initial(others, otherArms, otherRepeats)|
    requires w.json == v.json
    requires var d := Initial(subjects, arms, repeats)[i];
             && d == Initial(others, otherArms, otherRepeats)[j]
             && forall s :: s in d.steps ==>
                  AnswerIn(w, d, s, RunLog(w, subjects, arms, repeats))
                  == AnswerIn(v, d, s, RunLog(v, others, otherArms, otherRepeats))
    ensures |ReplayOf(w, subjects, arms, repeats).states| == |Initial(subjects, arms, repeats)|
    ensures |ReplayOf(v, others, otherArms, otherRepeats).states| == |Initial(others, otherArms, otherRepeats)|
    ensures ReplayOf(w, subjects, arms, repeats).states[i] == ReplayOf(v, others, otherArms, otherRepeats).states[j]
  {
    ReplayIsSolo(w, subjects, arms, repeats, i);
    ReplayIsSolo(v, others, otherArms, otherRepeats, j);
    var d := Initial(subjects, arms, repeats)[i];
    SoloDependsOnOwnAnswers(w, v, d, d.steps, RunLog(w, subjects, arms, repeats), RunLog(v, others, otherArms, otherRepeats));
  }

  /** Alone, a debate ends with a verdict or a named failure, and never with both. */
  lemma {:induction false} SoloEndsOnce(w: World, d: DebateValue, steps: seq<Step>, log: map<Step, seq<Reply>>)
    requires steps != [] && steps[|steps| - 1].role == Judge && d.verdict.None?
    requires forall k :: 0 <= k < |steps| - 1 ==> steps[k].role != Judge
    ensures var out := Solo(w, d, steps, log); out.failure.Some? <==> out.verdict.None?
    decreases |steps|
  {
    if d.failure.None? {
      var next := Applied(d, steps[0], AnswerIn(w, d, steps[0], log), w.json);
      if |steps| == 1 {
        assert Solo(w, next, steps[1..], log) == next;
      } else {
        SoloEndsOnce(w, next, steps[1..], log);
      }
    }
  }

  /** `completed()` and `failures()` partition the debates of every replay. */
  lemma EveryDebateEndsOnce(w: World, subjects: seq<Subject>, arms: seq<Arm>, repeats: int, i: nat)
    requires ReplayOf(w, subjects, arms, repeats).Replayed? && i < |Initial(subjects, arms, repeats)|
    ensures var out := ReplayOf(w, subjects, arms, repeats).states;
            i < |out| && (out[i].failure.Some? <==> out[i].verdict.None?)
  {
    ReplayIsSolo(w, subjects, arms, repeats, i);
    InitialAreStarted(subjects, arms, repeats, i);
    var d := Initial(subjects, arms, repeats)[i];
    var rounds: nat := Max(1, d.arm.maxRounds);
    forall k | 0 <= k < |d.steps| - 1 ensures d.steps[k].role != Judge {
      assert d.steps[k] in ArguingSteps(rounds);
      InArguing(rounds, d.steps[k]);
    }
    SoloEndsOnce(w, d, d.steps, RunLog(w, subjects, arms, repeats));
  }

  // ----- against a model -----------------------------------------------------------------------

  /** A model per configuration an arm can name. */
  type Models = (string, int, string) -> Llm

  predicate FromModel(reply: Option<Reply>, c: Completion) {
    match c
    case Said(text) => reply.Some? && reply.value.status == "succeeded" && reply.value.text == text
    case Stopped => reply.Some? && reply.value.status != "succeeded"
  }

  /** The gateway answers every request of every round as the configured model does. */
  ghost predicate Backed(w: World, models: Models) {
    forall k: nat, reqs: seq<Request>, i: nat :: i < |reqs| && !SameTurnTwice(reqs) ==>
      FromModel(Lookup(w.gateway(k, reqs), reqs[i].customId),
                models(reqs[i].model, reqs[i].maxTokens, reqs[i].effort)(reqs[i].prompt))
  }

  function ModelOf(models: Models, d: DebateValue): Llm {
    models(d.arm.model, d.arm.maxTokens, d.arm.effort)
  }

  function AsReply(c: Completion): Option<Reply> {
    match c
    case Said(text) => Some(Reply("", "succeeded", text))
    case Stopped => Some(Reply("", "stopped", ""))
  }

  /** One debate alone, asking its model directly at every step. */
  ghost function Live(d: DebateValue, steps: seq<Step>, llm: Llm, json: string -> Parsed): DebateValue
    decreases |steps|
  {
    if steps == [] || d.failure.Some? then d
    else
      var c := llm(Prompt(steps[0].role, d.subject.proposition, d.transcript));
      Live(Applied(d, steps[0], AsReply(c), json), steps[1..], llm, json)
  }

  predicate SameButReason(a: DebateValue, b: DebateValue) {
    a.(failure := None) == b.(failure := None) && (a.failure.Some? <==> b.failure.Some?)
  }

  /** A round applies to a debate what its model says to the debate's own prompt. */
  lemma AnsweredByModel(w: World, models: Models, ds: seq<DebateValue>, step: Step, rounds: nat, i: nat)
    requires Backed(w, models) && i < |ds| && Participates(ds[i], step)
    requires !SameTurnTwice(Requests(w, ds, step))
    ensures var d, replies := ds[i], w.gateway(rounds, Requests(w, ds, step));
            var c := ModelOf(models, d)(Prompt(step.role, d.subject.proposition, d.transcript));
            SameButReason(Applied(d, step, Answer(w, d, step, replies), w.json), Applied(d, step, AsReply(c), w.json))
  {
    RequestIsSent(w, ds, step, i);
    var d, requests := ds[i], Requests(w, ds, step);
    var k :| 0 <= k < |requests| && requests[k] == RequestOf(w, d, step);
    var c := ModelOf(models, d)(Prompt(step.role, d.subject.proposition, d.transcript));
    assert FromModel(Lookup(w.gateway(rounds, requests), requests[k].customId), c);
  }

  lemma {:induction false} RunIsLive(w: World, models: Models, ds: seq<DebateValue>, plan: seq<Step>, rounds: nat, sent: nat, i: nat)
    requires Backed(w, models)
    requires i < |ds| && NoRepeats(plan) && Run(w, ds, plan, rounds, sent).Replayed?
    ensures var out := Run(w, ds, plan, rounds, sent).states;
            && |out| == |ds|
            && SameButReason(out[i], Live(ds[i], Own(ds[i].steps, plan), ModelOf(models, ds[i]), w.json))
    decreases |plan|
  {
    hide SameTurnTwice, HasStray, Requests, Strip, FromModel, AsReply, Backed;
    if plan != [] {
      var step, rest, d := plan[0], plan[1..], ds[i];
      var requests := Requests(w, ds, step);
      var mine := Own(d.steps, rest);
      assert forall k :: 0 <= k < |rest| ==> rest[k] == plan[k + 1];
      if requests == [] {
        RunIsLive(w, models, ds, rest, rounds, sent, i);
        if Participates(d, step) { RequestIsSent(w, ds, step, i); }
      } else {
        var replies := w.gateway(rounds, requests);
        var after := RoundApplied(w, ds, step, replies);
        RunIsLive(w, models, after, rest, rounds + 1, sent + |requests|, i);
        AppliedKeepsIdentity(d, step, Answer(w, d, step, replies), w.json);
        if Participates(d, step) {
          AnsweredByModel(w, models, ds, step, rounds, i);
          assert ([step] + mine)[1..] == mine;
        }
      }
      if step !in d.steps { assert Own(d.steps, plan) == mine; }
    }
  }

  /** What a state says of its debate. */
  function EndOf(d: DebateValue): Ending {
    if d.failure.None? && d.verdict.Some? then Finished(d.transcript, d.verdict.value) else Raised
  }

  /** Arguing live, then the rest: as `Argue` says. */
  lemma {:induction false} LiveArgues(d: DebateValue, steps: seq<Step>, tail: seq<Step>, llm: Llm, json: string -> Parsed)
    requires d.failure.None? && forall k :: 0 <= k < |steps| ==> steps[k].role != Judge
    ensures match Argue(llm, d.subject.proposition, steps, d.transcript)
            case None => Live(d, steps + tail, llm, json).failure.Some?
            case Some(t) => Live(d, steps + tail, llm, json) == Live(d.(transcript := t), tail, llm, json)
    decreases |steps|
  {
    if steps == [] {
      assert steps + tail == tail;
    } else {
      var c := llm(Prompt(steps[0].role, d.subject.proposition, d.transcript));
      var next := Applied(d, steps[0], AsReply(c), json);
      assert (steps + tail)[1..] == steps[1..] + tail;
      if next.failure.None? { LiveArgues(next, steps[1..], tail, llm, json); }
    }
  }

  /** The judge's answer, if one is given, reads the same with and without its outer whitespace. */
  predicate JudgeReadsAlike(llm: Llm, p: Proposition, maxRounds: int, json: string -> Parsed) {
    match Argue(llm, p, ArguingSteps(Max(1, maxRounds)), [])
    case None => true
    case Some(t) =>
      match llm(Prompt(Judge, p, t))
      case Stopped => true
      case Said(raw) => Strip(raw) == "" || json(Strip(raw)) == json(raw)
  }

  lemma JudgeStep(d: DebateValue, llm: Llm, json: string -> Parsed)
    requires d.failure.None? && d.verdict.None?
    ensures var p := d.subject.proposition;
            match llm(Prompt(Judge, p, d.transcript))
            case Stopped => EndOf(Live(d, [Step(Judge, 0)], llm, json)) == Raised
            case Said(raw) =>
              EndOf(Live(d, [Step(Judge, 0)], llm, json)) ==
                match ParseVerdict(Strip(raw), json)
                case Unreadable => Raised
                case Ruled(v) => Finished(d.transcript, v)
  {
    var c := llm(Prompt(Judge, d.subject.proposition, d.transcript));
    var ruled := Applied(d, Step(Judge, 0), AsReply(c), json);
    assert [Step(Judge, 0)][1..] == [];
    assert Live(d, [Step(Judge, 0)], llm, json) == ruled;
    if c.Said? { StripDone(c.text); }
  }

  lemma LiveIsDeliberation(d: DebateValue, llm: Llm, json: string -> Parsed)
    requires d == Started(d.subject, d.repeat, d.arm)
    ensures EndOf(Live(d, d.steps, llm, json)) == Deliberation(llm, llm, d.subject.proposition, d.arm.maxRounds, json)
            <==> JudgeReadsAlike(llm, d.subject.proposition, d.arm.maxRounds, json)
  {
    var rounds: nat, p := Max(1, d.arm.maxRounds), d.subject.proposition;
    var steps := ArguingSteps(rounds);
    forall k | 0 <= k < |steps| ensures steps[k].role != Judge {
      assert steps[k] in steps;
      InArguing(rounds, steps[k]);
    }
    LiveArgues(d, steps, [Step(Judge, 0)], llm, json);
    match Argue(llm, p, steps, [])
    case None =>
    case Some(t) =>
      hide Live, Applied, Argue, StripLeft, StripRight, Strip;
      JudgeStep(d.(transcript := t), llm, json);
      match llm(Prompt(Judge, p, t)) {
        case Stopped =>
        case Said(raw) => StripDone(raw);
      }
  }

  /** With a gateway that answers as the models do, every debate of the batch ends as `deliberate`
      ends with its arm's model - same transcript, same verdict, or a failure on both sides -
      exactly when the judge's answer reads the same stripped and unstripped. */
  lemma ReplayMatchesDeliberate(w: World, models: Models, subjects: seq<Subject>, arms: seq<Arm>, repeats: int, i: nat)
    requires Backed(w, models)
    requires ReplayOf(w, subjects, arms, repeats).Replayed? && i < |Initial(subjects, arms, repeats)|
    ensures var d, out := Initial(subjects, arms, repeats)[i], ReplayOf(w, subjects, arms, repeats).states;
            var llm, p := ModelOf(models, d), d.subject.proposition;
            && i < |out|
            && (EndOf(out[i]) == Deliberation(llm, llm, p, d.arm.maxRounds, w.json)
                <==> JudgeReadsAlike(llm, p, d.arm.maxRounds, w.json))
  {
    InitialAreStarted(subjects, arms, repeats, i);
    PlanHasNoRepeats(arms);
    var ds := Initial(subjects, arms, repeats);
    PlanCoversArm(arms, ds[i].arm);
    RunIsLive(w, models, ds, PlanSteps(arms), 0, 0, i);
    LiveIsDeliberation(ds[i], ModelOf(models, ds[i]), w.json);
  }
}
