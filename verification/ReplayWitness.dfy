/** A replay whose judge reads differently: a gateway that answers exactly as its models do, and one
    debate that the replay finishes and the sequential debate refuses. */
module ReplayWitness {
  import opened Options
  import opened Debate
  import opened Replay
  import opened ReplayRefinement

  // ----- a gateway that answers as its models do -----------------------------------------------

  function ReplyTo(models: Models, r: Request): Reply {
    match models(r.model, r.maxTokens, r.effort)(r.prompt)
    case Said(text) => Reply(r.customId, "succeeded", text)
    case Stopped => Reply(r.customId, "stopped", "")
  }

  function RepliesTo(models: Models, requests: seq<Request>): seq<Reply> {
    seq(|requests|, i requires 0 <= i < |requests| => ReplyTo(models, requests[i]))
  }

  function PerfectWorld(customId: ReplayKey -> string, json: string -> Parsed, models: Models): World {
    World(customId, json, (_: nat, requests: seq<Request>) => RepliesTo(models, requests))
  }

  lemma {:induction false} OwnReplyFound(models: Models, requests: seq<Request>, n: nat, i: nat)
    requires !SameTurnTwice(requests) && i < n <= |requests|
    ensures Lookup(RepliesTo(models, requests)[..n], requests[i].customId) == Some(ReplyTo(models, requests[i]))
  {
    var replies := RepliesTo(models, requests);
    assert replies[..n][..n - 1] == replies[..n - 1];
    assert replies[n - 1].customId == requests[n - 1].customId;
    if i < n - 1 {
      assert requests[i].customId != requests[n - 1].customId;
      OwnReplyFound(models, requests, n - 1, i);
    }
  }

  lemma PerfectWorldIsBacked(customId: ReplayKey -> string, json: string -> Parsed, models: Models)
    ensures Backed(PerfectWorld(customId, json, models), models)
  {
    var w := PerfectWorld(customId, json, models);
    forall k: nat, requests: seq<Request>, i: nat | i < |requests| && !SameTurnTwice(requests)
      ensures FromModel(Lookup(w.gateway(k, requests), requests[i].customId),
                        models(requests[i].model, requests[i].maxTokens, requests[i].effort)(requests[i].prompt))
    {
      OwnReplyFound(models, requests, |requests|, i);
      assert RepliesTo(models, requests)[..|requests|] == RepliesTo(models, requests);
    }
  }

  /** One debate alone is always replayed to its end: no round can ask twice or be answered astray. */
  lemma {:induction false} OneDebateReplays(w: World, models: Models, ds: seq<DebateValue>, plan: seq<Step>, rounds: nat, sent: nat)
    requires |ds| == 1 && w.gateway == PerfectWorld(w.customId, w.json, models).gateway
    ensures Run(w, ds, plan, rounds, sent).Replayed?
    decreases |plan|
  {
    if plan != [] {
      var requests := Requests(w, ds, plan[0]);
      assert ds[..|ds| - 1] == [] && Requests(w, ds[..|ds| - 1], plan[0]) == [];
      assert |requests| <= 1;
      assert !SameTurnTwice(requests);
      if requests == [] {
        OneDebateReplays(w, models, ds, plan[1..], rounds, sent);
      } else {
        var replies := w.gateway(rounds, requests);
        assert replies == RepliesTo(models, requests);
        assert forall i :: 0 <= i < |replies| ==> replies[i].customId == requests[i].customId;
        OneDebateReplays(w, models, RoundApplied(w, ds, plan[0], replies), plan[1..], rounds + 1, sent + |requests|);
      }
    }
  }

  // ----- a judge that answers with a no-break space in front -----------------------------------

  /** The whitespace JSON allows around a value, section 2 of RFC 8259. */
  predicate IsJsonSpace(c: char) { c in {' ', '\t', '\n', '\r'} }

  function SkipJsonSpace(s: string): string {
    if s != [] && IsJsonSpace(s[0]) then SkipJsonSpace(s[1..]) else s
  }

  /** A reader of verdict objects; what it makes of the object does not matter here. */
  function ReadObject(raw: string): Parsed {
    var s := SkipJsonSpace(raw);
    if s != [] && s[0] == '{' then Ruled(Verdict("uphold", "")) else Unreadable
  }

  const NO_BREAK_SPACE: char := '\U{A0}'

  /** Both arguing roles say `turn`; the judge answers an object after a no-break space. */
  function SpacedJudge(turn: string): Llm {
    (prompt: Prompt) => Said(if prompt.role == Judge then [NO_BREAK_SPACE, '{', '}'] else turn)
  }

  lemma SpacedAnswer()
    ensures Strip([NO_BREAK_SPACE, '{', '}']) == ['{', '}']
    ensures ReadObject(['{', '}']).Ruled? && ReadObject([NO_BREAK_SPACE, '{', '}']) == Unreadable
  {
    var raw := [NO_BREAK_SPACE, '{', '}'];
    assert raw[1..] == ['{', '}'];
    assert StripLeft(raw) == StripLeft(['{', '}']) == ['{', '}'];
  }

  /** A speaker that is never blank is never refused a turn. */
  lemma {:induction false} AlwaysArgues(llm: Llm, p: Proposition, steps: seq<Step>, transcript: seq<Turn>, turn: string)
    requires Strip(turn) != "" && (forall k :: 0 <= k < |steps| ==> steps[k].role != Judge)
    requires forall prompt: Prompt :: prompt.role != Judge ==> llm(prompt) == Said(turn)
    ensures Argue(llm, p, steps, transcript).Some?
    decreases |steps|
  {
    hide Strip;
    if steps != [] {
      var step := steps[0];
      assert llm(Prompt(step.role, p, transcript)) == Said(turn);
      AlwaysArgues(llm, p, steps[1..], transcript + [Turn(step.role, step.number, Strip(turn))], turn);
    }
  }

  /** The judge of this debate does not read alike, so the replay finishes with a verdict the
      sequential debate refuses: one subject, one arm, one repeat, whatever the rest. */
  lemma ReplayFinishesWhatLiveRefuses(subject: Subject, arm: Arm, turn: string, customId: ReplayKey -> string)
    requires Strip(turn) != ""
    ensures var models: Models := (_: string, _: int, _: string) => SpacedJudge(turn);
            var w := PerfectWorld(customId, ReadObject, models);
            var outcome, llm := ReplayOf(w, [subject], [arm], 1), SpacedJudge(turn);
            && Backed(w, models)
            && !JudgeReadsAlike(llm, subject.proposition, arm.maxRounds, ReadObject)
            && outcome.Replayed? && |outcome.states| == 1
            && EndOf(outcome.states[0]) != Deliberation(llm, llm, subject.proposition, arm.maxRounds, ReadObject)
            && Deliberation(llm, llm, subject.proposition, arm.maxRounds, ReadObject) == Raised
  {
    var models: Models := (_: string, _: int, _: string) => SpacedJudge(turn);
    var w, llm, p := PerfectWorld(customId, ReadObject, models), SpacedJudge(turn), subject.proposition;
    var ds := Initial([subject], [arm], 1);
    OneDebate(subject, arm);
    PerfectWorldIsBacked(customId, ReadObject, models);
    OneDebateReplays(w, models, ds, PlanSteps([arm]), 0, 0);
    ReplayMatchesDeliberate(w, models, [subject], [arm], 1, 0);
    SpacedJudgeRefused(subject, arm, turn);
    RunIsSolo(w, ds, PlanSteps([arm]), 0, 0, 0) by { PlanHasNoRepeats([arm]); }
  }

  lemma OneDebate(subject: Subject, arm: Arm)
    ensures Initial([subject], [arm], 1) == [Started(subject, 1, arm)]
  {
    assert [subject][..0] == [] && [arm][..0] == [];
    assert Repeated(subject, [arm], 0) == [];
    assert Armed(subject, 1, []) == [];
    assert Armed(subject, 1, [arm]) == [Started(subject, 1, arm)];
    assert Repeated(subject, [arm], 1) == [Started(subject, 1, arm)];
  }

  lemma SpacedJudgeRefused(subject: Subject, arm: Arm, turn: string)
    requires Strip(turn) != ""
    ensures var llm := SpacedJudge(turn);
            && !JudgeReadsAlike(llm, subject.proposition, arm.maxRounds, ReadObject)
            && Deliberation(llm, llm, subject.proposition, arm.maxRounds, ReadObject) == Raised
  {
    var llm, p := SpacedJudge(turn), subject.proposition;
    var rounds: nat := Max(1, arm.maxRounds);
    var steps := ArguingSteps(rounds);
    forall k | 0 <= k < |steps| ensures steps[k].role != Judge {
      assert steps[k] in steps;
      InArguing(rounds, steps[k]);
    }
    AlwaysArgues(llm, p, steps, [], turn);
    SpacedAnswer();
    hide Argue, Strip, ReadObject;
    var t := Argue(llm, p, steps, []).value;
    assert llm(Prompt(Judge, p, t)) == Said([NO_BREAK_SPACE, '{', '}']);
  }
}
