/** How every debate of a batched replay ends, whatever the gateway returns: the replies addressed to it
    decide its transcript, its verdict and its failure, one request answers for one turn or ending, and
    only a debate built twice is refused. */
module ReplayEndings {
  import opened Options
  import opened Debate
  import opened Replay
  import opened ReplayRefinement

  // ----- endings -------------------------------------------------------------------------------

  /** The reply is there, succeeded and is not blank. */
  predicate IsGood(reply: Option<Reply>) {
    reply.Some? && reply.value.status == "succeeded" && HasText(reply.value.text)
  }

  /** The turn that a good reply to `step` makes. */
  predicate Heard(turn: Turn, step: Step, reply: Option<Reply>) {
    IsGood(reply) && turn.role == step.role && turn.number == step.number && turn.text == Strip(reply.value.text)
  }

  /** Why a debate fails on a reply that is not good. */
  predicate FailsOn(failure: Option<Failure>, reply: Option<Reply>) {
    if reply.None? then failure == Some(MissingResult)
    else if reply.value.status != "succeeded" then failure == Some(Status(reply.value.status))
    else failure == Some(EmptyTurn)
  }

  lemma GoodArgues(d: DebateValue, step: Step, reply: Option<Reply>, json: string -> Parsed) returns (turn: Turn)
    requires step.role != Judge
    ensures IsGood(reply) ==> Heard(turn, step, reply) && Applied(d, step, reply, json) == d.(transcript := d.transcript + [turn])
    ensures !IsGood(reply) ==>
      var r := Applied(d, step, reply, json);
      FailsOn(r.failure, reply) && r == d.(failure := r.failure)
  {
    if reply.Some? { BlankExactly(reply.value.text); }
    turn := Turn(step.role, step.number, if reply.Some? then Strip(reply.value.text) else "");
    hide Strip, HasText;
  }

  lemma GoodRules(d: DebateValue, step: Step, reply: Option<Reply>, json: string -> Parsed)
    requires step.role == Judge
    ensures var r := Applied(d, step, reply, json);
            if !IsGood(reply) then FailsOn(r.failure, reply) && r == d.(failure := r.failure)
            else match json(Strip(reply.value.text))
                 case Unreadable => r == d.(failure := Some(UnreadableVerdict))
                 case Ruled(v) => r == d.(verdict := Some(v))
  {
    if reply.Some? {
      BlankExactly(reply.value.text);
      StripDone(reply.value.text);
    }
    hide Strip, HasText;
  }

  /** Arguing alone: up to the first reply that is not good, every reply makes its turn. */
  lemma {:induction false} SoloArgues(w: World, d: DebateValue, steps: seq<Step>, tail: seq<Step>, log: map<Step, seq<Reply>>)
    returns (k: nat, t: seq<Turn>)
    requires d.failure.None? && forall j :: 0 <= j < |steps| ==> steps[j].role != Judge
    ensures k <= |steps| && |t| == k && forall j :: 0 <= j < k ==> Heard(t[j], steps[j], AnswerIn(w, d, steps[j], log))
    ensures k == |steps| ==> Solo(w, d, steps + tail, log) == Solo(w, d.(transcript := d.transcript + t), tail, log)
    ensures k < |steps| ==>
      var r := Solo(w, d, steps + tail, log);
      !IsGood(AnswerIn(w, d, steps[k], log)) && FailsOn(r.failure, AnswerIn(w, d, steps[k], log))
      && r == d.(transcript := d.transcript + t, failure := r.failure)
    decreases |steps|
  {
    hide IsGood, FailsOn, Heard, Applied, Answer;
    if steps == [] {
      assert steps + tail == tail;
      k, t := 0, [];
      assert d.transcript + t == d.transcript;
    } else {
      var reply := AnswerIn(w, d, steps[0], log);
      var turn := GoodArgues(d, steps[0], reply, w.json);
      var next := Applied(d, steps[0], reply, w.json);
      assert (steps + tail)[0] == steps[0] && (steps + tail)[1..] == steps[1..] + tail;
      if IsGood(reply) {
        var j, rest := SoloArgues(w, next, steps[1..], tail, log);
        k, t := j + 1, [turn] + rest;
        SameAnswers(w, d, next, log);
        assert d.transcript + t == next.transcript + rest;
      } else {
        k, t := 0, [];
        assert d.transcript + t == d.transcript && next.failure.Some? by { hide *; FailsMeans(next.failure, reply); }
        assert Solo(w, next, steps[1..] + tail, log) == next;
      }
    }
  }

  lemma FailsMeans(failure: Option<Failure>, reply: Option<Reply>)
    requires FailsOn(failure, reply)
    ensures failure.Some?
  {
  }

  /** Answers are addressed by who debates, not by how far the debate is. */
  lemma SameAnswers(w: World, d: DebateValue, e: DebateValue, log: map<Step, seq<Reply>>)
    requires d.subject == e.subject && d.repeat == e.repeat && d.arm == e.arm
    ensures forall s :: AnswerIn(w, d, s, log) == AnswerIn(w, e, s, log)
  {
  }

  /** A debate's ending after `k` good replies of its own: it holds their turns in order, and then failed
      on the next reply, or was ruled on. */
  ghost predicate EndsAfter(w: World, d: DebateValue, out: DebateValue, log: map<Step, seq<Reply>>, k: nat)
    requires |d.steps| > 0
  {
    var n := |d.steps| - 1;
    var judged := AnswerIn(w, d, d.steps[n], log);
    && k <= |d.steps| && |out.transcript| == (if k < n then k else n)
    && (forall j :: 0 <= j < k && j < n ==> Heard(out.transcript[j], d.steps[j], AnswerIn(w, d, d.steps[j], log)))
    && (k <= n ==>
          && out.verdict.None? && !IsGood(AnswerIn(w, d, d.steps[k], log))
          && FailsOn(out.failure, AnswerIn(w, d, d.steps[k], log)))
    && (k > n ==> IsGood(judged) && RuledOn(out, w.json(Strip(judged.value.text))))
  }

  predicate RuledOn(out: DebateValue, ruling: Parsed) {
    match ruling
    case Unreadable => out.verdict.None? && out.failure == Some(UnreadableVerdict)
    case Ruled(v) => out.verdict == Some(v) && out.failure.None?
  }

  /** Every debate of a replay ends after some number of good replies of its own, as the first that is not
      good, or the judge's, says. */
  lemma DebateEnds(w: World, subjects: seq<Subject>, arms: seq<Arm>, repeats: int, i: nat) returns (k: nat)
    requires ReplayOf(w, subjects, arms, repeats).Replayed? && i < |Initial(subjects, arms, repeats)|
    ensures var out, d := ReplayOf(w, subjects, arms, repeats).states, Initial(subjects, arms, repeats)[i];
            && i < |out| && |d.steps| > 0
            && EndsAfter(w, d, out[i], RunLog(w, subjects, arms, repeats), k)
            && out[i].subject == d.subject && out[i].repeat == d.repeat && out[i].arm == d.arm
  {
    ReplayIsSolo(w, subjects, arms, repeats, i);
    InitialAreStarted(subjects, arms, repeats, i);
    hide ReplayOf, RunLog, Initial;
    k := SoloEnds(w, Initial(subjects, arms, repeats)[i], RunLog(w, subjects, arms, repeats));
  }

  lemma SoloEnds(w: World, d: DebateValue, log: map<Step, seq<Reply>>) returns (k: nat)
    requires d == Started(d.subject, d.repeat, d.arm)
    ensures |d.steps| > 0 && EndsAfter(w, d, Solo(w, d, d.steps, log), log, k)
    ensures var r := Solo(w, d, d.steps, log); r.subject == d.subject && r.repeat == d.repeat && r.arm == d.arm
  {
    var steps, judge := ArguingSteps(Max(1, d.arm.maxRounds)), Step(Judge, 0);
    forall j | 0 <= j < |steps| ensures steps[j].role != Judge {
      assert steps[j] in steps;
      InArguing(Max(1, d.arm.maxRounds), steps[j]);
    }
    assert d.steps == steps + [judge];
    hide ArguingSteps, Applied, IsGood, FailsOn, Heard, AnswerIn, Solo, EndsAfter;
    var n, t := SoloArgues(w, d, steps, [judge], log);
    assert d.transcript + t == t;
    if n < |steps| {
      k := n;
      Stopped(w, d, steps, Solo(w, d, d.steps, log), log, n, t);
    } else {
      var argued := d.(transcript := t);
      JudgedAlone(w, argued, judge, log);
      SameAnswers(w, d, argued, log);
      GoodRules(argued, judge, AnswerIn(w, d, judge, log), w.json);
      k := if IsGood(AnswerIn(w, d, judge, log)) then n + 1 else n;
      Judged(w, d, steps, Solo(w, d, d.steps, log), log, t, k);
    }
  }

  lemma JudgedAlone(w: World, d: DebateValue, judge: Step, log: map<Step, seq<Reply>>)
    requires d.failure.None?
    ensures Solo(w, d, [judge], log) == Applied(d, judge, AnswerIn(w, d, judge, log), w.json)
  {
    hide Applied;
    assert [judge][1..] == [];
    assert forall e: DebateValue :: Solo(w, e, [], log) == e;
  }

  lemma Stopped(w: World, d: DebateValue, steps: seq<Step>, out: DebateValue, log: map<Step, seq<Reply>>, k: nat, t: seq<Turn>)
    requires d.steps == steps + [Step(Judge, 0)] && d.verdict.None? && k < |steps| && |t| == k
    requires forall j :: 0 <= j < k ==> Heard(t[j], steps[j], AnswerIn(w, d, steps[j], log))
    requires !IsGood(AnswerIn(w, d, steps[k], log)) && FailsOn(out.failure, AnswerIn(w, d, steps[k], log))
    requires out == d.(transcript := t, failure := out.failure)
    ensures EndsAfter(w, d, out, log, k)
  {
    hide IsGood, FailsOn, Heard, AnswerIn;
    assert forall j :: 0 <= j < |steps| ==> d.steps[j] == steps[j];
  }

  lemma Judged(w: World, d: DebateValue, steps: seq<Step>, out: DebateValue, log: map<Step, seq<Reply>>, t: seq<Turn>, k: nat)
    requires d.steps == steps + [Step(Judge, 0)] && d.verdict.None? && d.failure.None? && |t| == |steps|
    requires forall j :: 0 <= j < |steps| ==> Heard(t[j], steps[j], AnswerIn(w, d, steps[j], log))
    requires var reply := AnswerIn(w, d, Step(Judge, 0), log);
             && k == |steps| + (if IsGood(reply) then 1 else 0)
             && if !IsGood(reply) then FailsOn(out.failure, reply) && out == d.(transcript := t, failure := out.failure)
                else match w.json(Strip(reply.value.text))
                     case Unreadable => out == d.(transcript := t, failure := Some(UnreadableVerdict))
                     case Ruled(v) => out == d.(transcript := t, verdict := Some(v))
    ensures EndsAfter(w, d, out, log, k)
  {
    hide FailsOn, Heard, AnswerIn, Strip;
    assert forall j :: 0 <= j < |steps| ==> d.steps[j] == steps[j];
    assert d.steps[|steps|] == Step(Judge, 0);
  }

  /** A debate's ending in full: it has a verdict exactly when every reply of its own is good and the
      judge's reads; it then holds every turn of its arm, in order, each the stripped text of its own reply,
      and that ruling. */
  ghost predicate Complete(w: World, d: DebateValue, out: DebateValue, log: map<Step, seq<Reply>>) {
    var steps, judged := ArguingSteps(Max(1, d.arm.maxRounds)), AnswerIn(w, d, Step(Judge, 0), log);
    && (out.verdict.Some? <==>
          && (forall j :: 0 <= j < |steps| ==> IsGood(AnswerIn(w, d, steps[j], log)))
          && IsGood(judged) && w.json(Strip(judged.value.text)).Ruled?)
    && (out.verdict.Some? ==>
          && out.failure.None? && Ruled(out.verdict.value) == w.json(Strip(judged.value.text))
          && |out.transcript| == |steps|
          && forall j :: 0 <= j < |steps| ==> Heard(out.transcript[j], steps[j], AnswerIn(w, d, steps[j], log)))
  }

  lemma CompletedExactly(w: World, subjects: seq<Subject>, arms: seq<Arm>, repeats: int, i: nat)
    requires ReplayOf(w, subjects, arms, repeats).Replayed? && i < |Initial(subjects, arms, repeats)|
    ensures i < |ReplayOf(w, subjects, arms, repeats).states|
    ensures Complete(w, Initial(subjects, arms, repeats)[i], ReplayOf(w, subjects, arms, repeats).states[i],
                     RunLog(w, subjects, arms, repeats))
  {
    var k := DebateEnds(w, subjects, arms, repeats, i);
    InitialAreStarted(subjects, arms, repeats, i);
    hide ReplayOf, RunLog, Initial, EndsAfter, Complete;
    EndIsComplete(w, Initial(subjects, arms, repeats)[i], ReplayOf(w, subjects, arms, repeats).states[i],
                  RunLog(w, subjects, arms, repeats), k);
  }

  lemma EndIsComplete(w: World, d: DebateValue, out: DebateValue, log: map<Step, seq<Reply>>, k: nat)
    requires d == Started(d.subject, d.repeat, d.arm) && |d.steps| > 0 && EndsAfter(w, d, out, log, k)
    ensures Complete(w, d, out, log)
  {
    var steps := ArguingSteps(Max(1, d.arm.maxRounds));
    assert d.steps == steps + [Step(Judge, 0)];
    hide ArguingSteps, IsGood, FailsOn, Heard, AnswerIn, Strip;
    assert forall j :: 0 <= j < |steps| ==> d.steps[j] == steps[j];
    assert d.steps[|steps|] == Step(Judge, 0);
    if k < |steps| { assert !IsGood(AnswerIn(w, d, steps[k], log)); }
    forall j | 0 <= j < |steps| && j < k ensures IsGood(AnswerIn(w, d, steps[j], log)) {
      HeardIsGood(out.transcript[j], steps[j], AnswerIn(w, d, steps[j], log));
    }
  }

  lemma HeardIsGood(turn: Turn, step: Step, reply: Option<Reply>)
    requires Heard(turn, step, reply)
    ensures IsGood(reply)
  {
  }

  // ----- what is sent --------------------------------------------------------------------------

  /** The requests a debate's state answers for: one a turn, and one its verdict or failure. */
  function Answers(d: DebateValue): nat {
    |d.transcript| + if d.verdict.Some? || d.failure.Some? then 1 else 0
  }

  function AllAnswers(ds: seq<DebateValue>): nat {
    if ds == [] then 0 else AllAnswers(ds[..|ds| - 1]) + Answers(ds[|ds| - 1])
  }

  lemma AppliedAnswers(d: DebateValue, step: Step, reply: Option<Reply>, json: string -> Parsed)
    requires d.failure.None? && d.verdict.None?
    ensures Answers(Applied(d, step, reply, json)) == Answers(d) + 1
    ensures step.role != Judge ==> Applied(d, step, reply, json).verdict.None?
  {
    hide Strip;
  }

  lemma {:induction false} RoundAnswers(w: World, ds: seq<DebateValue>, step: Step, replies: seq<Reply>)
    requires forall i :: 0 <= i < |ds| ==> ds[i].verdict.None?
    ensures AllAnswers(RoundApplied(w, ds, step, replies)) == AllAnswers(ds) + |Requests(w, ds, step)|
  {
    hide Applied, Answer, RequestOf, Answers;
    if ds != [] {
      var most, last := ds[..|ds| - 1], ds[|ds| - 1];
      RoundAnswers(w, most, step, replies);
      assert RoundApplied(w, ds, step, replies)[..|ds| - 1] == RoundApplied(w, most, step, replies);
      if Participates(last, step) { AppliedAnswers(last, step, Answer(w, last, step, replies), w.json); }
    }
  }

  lemma {:induction false} RunAnswers(w: World, ds: seq<DebateValue>, plan: seq<Step>, rounds: nat, sent: nat)
    requires forall i :: 0 <= i < |ds| ==> ds[i].verdict.None?
    requires forall k :: 0 <= k < |plan| - 1 ==> plan[k].role != Judge
    requires NoRepeats(plan) && Run(w, ds, plan, rounds, sent).Replayed?
    ensures var r := Run(w, ds, plan, rounds, sent);
            && r.sent + AllAnswers(ds) == sent + AllAnswers(r.states)
            && r.rounds == rounds + |Log(w, ds, plan, rounds)|
            && forall s :: s in Log(w, ds, plan, rounds) ==> s in plan
    decreases |plan|
  {
    hide SameTurnTwice, HasStray, Requests, AllAnswers, RoundApplied;
    if plan != [] {
      var requests, rest := Requests(w, ds, plan[0]), plan[1..];
      assert forall k :: 0 <= k < |rest| ==> rest[k] == plan[k + 1] && rest[k] != plan[0];
      if requests == [] {
        RunAnswers(w, ds, rest, rounds, sent);
      } else {
        var replies := w.gateway(rounds, requests);
        var after := RoundApplied(w, ds, plan[0], replies);
        RoundAnswers(w, ds, plan[0], replies);
        if rest != [] {
          StillNoVerdict(w, ds, plan[0], replies);
          RunAnswers(w, after, rest, rounds + 1, sent + |requests|);
          assert plan[0] !in Log(w, after, rest, rounds + 1);
        } else {
          assert Run(w, after, rest, rounds + 1, sent + |requests|) == Outcome.Replayed(after, rounds + 1, sent + |requests|);
          assert Log(w, after, rest, rounds + 1) == map[];
        }
      }
    }
  }

  lemma StillNoVerdict(w: World, ds: seq<DebateValue>, step: Step, replies: seq<Reply>)
    requires step.role != Judge && forall i :: 0 <= i < |ds| ==> ds[i].verdict.None?
    ensures forall i :: 0 <= i < |ds| ==> RoundApplied(w, ds, step, replies)[i].verdict.None?
  {
    hide Applied, Answer;
    forall i | 0 <= i < |ds| ensures RoundApplied(w, ds, step, replies)[i].verdict.None? {
      if Participates(ds[i], step) { AppliedAnswers(ds[i], step, Answer(w, ds[i], step, replies), w.json); }
    }
  }

  lemma {:induction false} NothingAnswered(ds: seq<DebateValue>)
    requires forall i :: 0 <= i < |ds| ==> Answers(ds[i]) == 0
    ensures AllAnswers(ds) == 0
  {
    if ds != [] { NothingAnswered(ds[..|ds| - 1]); }
  }

  /** Requests are conserved: each one sent is a turn of a debate, or its verdict or failure; and the rounds
      counted are those the gateway was given. */
  lemma EveryRequestIsAnswered(w: World, subjects: seq<Subject>, arms: seq<Arm>, repeats: int)
    requires ReplayOf(w, subjects, arms, repeats).Replayed?
    ensures var r := ReplayOf(w, subjects, arms, repeats);
            r.sent == AllAnswers(r.states) && r.rounds == |RunLog(w, subjects, arms, repeats)|
  {
    var ds, plan := Initial(subjects, arms, repeats), PlanSteps(arms);
    forall i | 0 <= i < |ds| ensures ds[i].verdict.None? && Answers(ds[i]) == 0 { InitialAreStarted(subjects, arms, repeats, i); }
    NothingAnswered(ds);
    PlanHasNoRepeats(arms);
    forall k | 0 <= k < |plan| - 1 ensures plan[k].role != Judge {
      assert plan[k] in ArguingSteps(Rounds(arms));
      InArguing(Rounds(arms), plan[k]);
    }
    RunAnswers(w, ds, plan, 0, 0);
  }

  // ----- what is refused -----------------------------------------------------------------------

  /** Who debates: what the custom id of a turn is made of, apart from the turn. */
  predicate SameDebate(d: DebateValue, e: DebateValue) {
    && d.subject.pmRun == e.subject.pmRun && d.subject.ticker == e.subject.ticker
    && d.repeat == e.repeat && d.arm.name == e.arm.name
  }

  ghost predicate AllDiffer(ds: seq<DebateValue>) {
    forall i, j :: 0 <= i < j < |ds| ==> !SameDebate(ds[i], ds[j])
  }

  ghost predicate NamesTurns(customId: ReplayKey -> string) {
    forall a, b :: customId(a) == customId(b) ==> a == b
  }

  lemma {:induction false} RequestsAreOf(w: World, ds: seq<DebateValue>, step: Step, k: nat) returns (i: nat)
    requires k < |Requests(w, ds, step)|
    ensures i < |ds| && Participates(ds[i], step) && Requests(w, ds, step)[k] == RequestOf(w, ds[i], step)
  {
    hide RequestOf, Participates;
    if k < |Requests(w, ds[..|ds| - 1], step)| {
      i := RequestsAreOf(w, ds[..|ds| - 1], step, k);
      assert ds[..|ds| - 1][i] == ds[i];
    } else {
      i := |ds| - 1;
    }
  }

  /** Debates that differ send requests that differ. */
  lemma {:induction false} DifferentTurns(w: World, ds: seq<DebateValue>, step: Step)
    requires AllDiffer(ds) && NamesTurns(w.customId)
    ensures !SameTurnTwice(Requests(w, ds, step))
  {
    hide Participates;
    if ds != [] {
      var most, last := ds[..|ds| - 1], ds[|ds| - 1];
      var requests := Requests(w, most, step);
      DifferentTurns(w, most, step);
      forall k | 0 <= k < |requests| ensures requests[k].customId != w.customId(KeyOf(last, step)) {
        var i := RequestsAreOf(w, most, step, k);
        assert !SameDebate(ds[i], ds[|ds| - 1]) && most[i] == ds[i];
      }
    }
  }

  lemma StillDiffer(w: World, ds: seq<DebateValue>, step: Step, replies: seq<Reply>)
    requires AllDiffer(ds)
    ensures AllDiffer(RoundApplied(w, ds, step, replies))
  {
    var after := RoundApplied(w, ds, step, replies);
    forall i | 0 <= i < |ds|
      ensures after[i].subject == ds[i].subject && after[i].repeat == ds[i].repeat && after[i].arm == ds[i].arm
    {
      AppliedKeepsIdentity(ds[i], step, Answer(w, ds[i], step, replies), w.json);
    }
  }

  lemma {:induction false} NeverTwice(w: World, ds: seq<DebateValue>, plan: seq<Step>, rounds: nat, sent: nat)
    requires AllDiffer(ds) && NamesTurns(w.customId)
    ensures !Run(w, ds, plan, rounds, sent).PlannedTwice?
    decreases |plan|
  {
    hide SameTurnTwice, HasStray, Requests, RoundApplied, AllDiffer, NamesTurns;
    if plan != [] {
      var requests := Requests(w, ds, plan[0]);
      DifferentTurns(w, ds, plan[0]);
      if requests == [] {
        NeverTwice(w, ds, plan[1..], rounds, sent);
      } else {
        var replies := w.gateway(rounds, requests);
        StillDiffer(w, ds, plan[0], replies);
        NeverTwice(w, RoundApplied(w, ds, plan[0], replies), plan[1..], rounds + 1, sent + |requests|);
      }
    }
  }

  lemma {:induction false} RequestsGrow(w: World, ds: seq<DebateValue>, step: Step, n: nat)
    requires n <= |ds|
    ensures Requests(w, ds[..n], step) <= Requests(w, ds, step)
  {
    if n == |ds| {
      assert ds[..n] == ds;
    } else {
      RequestsGrow(w, ds[..|ds| - 1], step, n);
      assert ds[..|ds| - 1][..n] == ds[..n];
    }
  }

  /** Two debates that are the same ask twice for the first turn. */
  lemma SameDebateTwice(w: World, ds: seq<DebateValue>, step: Step, i: nat, j: nat)
    requires i < j < |ds| && SameDebate(ds[i], ds[j]) && Participates(ds[i], step) && Participates(ds[j], step)
    ensures SameTurnTwice(Requests(w, ds, step))
  {
    hide Participates;
    var before, requests := Requests(w, ds[..j], step), Requests(w, ds, step);
    RequestIsSent(w, ds[..j], step, i);
    var k :| 0 <= k < |before| && before[k] == RequestOf(w, ds[..j][i], step);
    assert ds[..j + 1][..j] == ds[..j] && ds[..j + 1][j] == ds[j];
    RequestsGrow(w, ds, step, j + 1);
    assert Requests(w, ds[..j + 1], step) == before + [RequestOf(w, ds[j], step)];
    assert requests[k] == before[k] && requests[|before|] == RequestOf(w, ds[j], step);
    assert KeyOf(ds[i], step) == KeyOf(ds[j], step);
  }

  /** A replay is refused as planned twice exactly when a debate was built twice. */
  lemma PlannedTwiceExactly(w: World, subjects: seq<Subject>, arms: seq<Arm>, repeats: int)
    requires NamesTurns(w.customId)
    ensures ReplayOf(w, subjects, arms, repeats).PlannedTwice? <==> !AllDiffer(Initial(subjects, arms, repeats))
  {
    var ds, plan := Initial(subjects, arms, repeats), PlanSteps(arms);
    if AllDiffer(ds) {
      NeverTwice(w, ds, plan, 0, 0);
    } else {
      var i, j :| 0 <= i < j < |ds| && SameDebate(ds[i], ds[j]);
      FirstTurn(subjects, arms, repeats, i);
      FirstTurn(subjects, arms, repeats, j);
      SameDebateTwice(w, ds, plan[0], i, j);
    }
  }

  lemma FirstTurn(subjects: seq<Subject>, arms: seq<Arm>, repeats: int, i: nat)
    requires i < |Initial(subjects, arms, repeats)|
    ensures PlanSteps(arms) != [] && Participates(Initial(subjects, arms, repeats)[i], PlanSteps(arms)[0])
  {
    InitialAreStarted(subjects, arms, repeats, i);
    var d := Initial(subjects, arms, repeats)[i];
    var mine := Max(1, d.arm.maxRounds);
    RoundsCover(arms, d.arm);
    ArguingStepsAt(mine, 1);
    ArguingStepsAt(Rounds(arms), 1);
    hide Initial, ArguingSteps;
    assert PlanSteps(arms)[0] == Step(Defender, 1);
    assert ArguingSteps(mine)[0] in d.steps;
  }

  /** No reply answers a request that was not made. */
  ghost predicate Addressed(w: World) {
    forall k: nat, requests: seq<Request> :: !HasStray(requests, w.gateway(k, requests))
  }

  /** With a gateway that answers only what it is asked, the replay of debates that differ goes through to
      the end. */
  lemma ReplayGoesThrough(w: World, subjects: seq<Subject>, arms: seq<Arm>, repeats: int)
    requires NamesTurns(w.customId) && Addressed(w) && AllDiffer(Initial(subjects, arms, repeats))
    ensures ReplayOf(w, subjects, arms, repeats).Replayed?
  {
    NeverTwice(w, Initial(subjects, arms, repeats), PlanSteps(arms), 0, 0);
    NeverStray(w, Initial(subjects, arms, repeats), PlanSteps(arms), 0, 0);
  }

  lemma {:induction false} NeverStray(w: World, ds: seq<DebateValue>, plan: seq<Step>, rounds: nat, sent: nat)
    requires Addressed(w)
    ensures !Run(w, ds, plan, rounds, sent).StrayAnswer?
    decreases |plan|
  {
    hide SameTurnTwice, HasStray, Requests, RoundApplied;
    if plan != [] {
      var requests := Requests(w, ds, plan[0]);
      var replies := w.gateway(rounds, requests);
      NeverStray(w, ds, plan[1..], rounds, sent);
      NeverStray(w, RoundApplied(w, ds, plan[0], replies), plan[1..], rounds + 1, sent + |requests|);
    }
  }

  /** Some debate has the turn `step` under this id. */
  ghost predicate Asked(w: World, ds: seq<DebateValue>, step: Step, id: string) {
    exists i :: 0 <= i < |ds| && step in ds[i].steps && id == w.customId(KeyOf(ds[i], step))
  }

  lemma {:induction false} RequestsAsk(w: World, ds: seq<DebateValue>, step: Step, r: Request)
    requires r in Requests(w, ds, step)
    ensures Asked(w, ds, step, r.customId)
  {
    var most, last := ds[..|ds| - 1], ds[|ds| - 1];
    if r in Requests(w, most, step) {
      RequestsAsk(w, most, step, r);
      var i :| 0 <= i < |most| && step in most[i].steps && r.customId == w.customId(KeyOf(most[i], step));
      assert ds[i] == most[i];
    } else {
      assert r == RequestOf(w, last, step) && step in last.steps;
    }
  }

  lemma AskedOn(w: World, ds: seq<DebateValue>, step: Step, replies: seq<Reply>, other: Step, id: string)
    requires Asked(w, RoundApplied(w, ds, step, replies), other, id)
    ensures Asked(w, ds, other, id)
  {
    hide Answer;
    var after := RoundApplied(w, ds, step, replies);
    var i :| 0 <= i < |after| && other in after[i].steps && id == w.customId(KeyOf(after[i], other));
    assert after[i].steps == ds[i].steps && KeyOf(after[i], other) == KeyOf(ds[i], other);
  }

  lemma {:induction false} RunHearsOnlyAsked(w: World, ds: seq<DebateValue>, plan: seq<Step>, rounds: nat, sent: nat,
                                             step: Step, reply: Reply)
    requires Run(w, ds, plan, rounds, sent).Replayed?
    requires step in Log(w, ds, plan, rounds) && reply in Log(w, ds, plan, rounds)[step]
    ensures Asked(w, ds, step, reply.customId)
    decreases |plan|
  {
    hide SameTurnTwice, Requests, RoundApplied, Asked;
    var requests := Requests(w, ds, plan[0]);
    if requests == [] {
      RunHearsOnlyAsked(w, ds, plan[1..], rounds, sent, step, reply);
    } else {
      var replies := w.gateway(rounds, requests);
      if step == plan[0] {
        var i :| 0 <= i < |replies| && replies[i] == reply;
        var j :| 0 <= j < |requests| && requests[j].customId == reply.customId;
        RequestsAsk(w, ds, step, requests[j]);
      } else {
        RunHearsOnlyAsked(w, RoundApplied(w, ds, plan[0], replies), plan[1..], rounds + 1, sent + |requests|, step, reply);
        AskedOn(w, ds, plan[0], replies, step, reply.customId);
      }
    }
  }

  /** A replay that goes through heard nothing it did not ask: every reply of a round is addressed to the turn
      of some debate. */
  lemma NothingUnasked(w: World, subjects: seq<Subject>, arms: seq<Arm>, repeats: int, step: Step, reply: Reply)
    requires ReplayOf(w, subjects, arms, repeats).Replayed?
    requires step in RunLog(w, subjects, arms, repeats) && reply in RunLog(w, subjects, arms, repeats)[step]
    ensures Asked(w, Initial(subjects, arms, repeats), step, reply.customId)
  {
    RunHearsOnlyAsked(w, Initial(subjects, arms, repeats), PlanSteps(arms), 0, 0, step, reply);
  }

  /** No step is planned that no arm takes. */
  lemma PlanIsNeeded(arms: seq<Arm>, k: nat)
    requires k < |PlanSteps(arms)|
    ensures exists arm :: arm in arms && PlanSteps(arms)[k] in ArmSteps(arm)
  {
    var arm := LongestArm(arms);
    assert PlanSteps(arms) == ArmSteps(arm);
  }

  lemma {:induction false} LongestArm(arms: seq<Arm>) returns (arm: Arm)
    requires arms != []
    ensures arm in arms && Max(1, arm.maxRounds) == Rounds(arms)
  {
    arm := arms[0];
    if |arms| > 1 {
      var other := LongestArm(arms[1..]);
      if other.maxRounds > arm.maxRounds { arm := other; }
    }
  }

  // ----- what is built -------------------------------------------------------------------------

  lemma {:induction false} ArmedAt(subject: Subject, repeat: int, arms: seq<Arm>, a: nat)
    requires a < |arms|
    ensures |Armed(subject, repeat, arms)| == |arms|
    ensures Armed(subject, repeat, arms)[a] == Started(subject, repeat, arms[a])
  {
    if |arms| == 1 {
      assert Armed(subject, repeat, arms[..0]) == [];
    } else {
      ArmedAt(subject, repeat, arms[..|arms| - 1], if a < |arms| - 1 then a else 0);
    }
  }

  lemma {:induction false} RepeatedAt(subject: Subject, arms: seq<Arm>, repeats: nat, r: nat, a: nat)
    requires 1 <= r <= repeats && a < |arms|
    ensures |Repeated(subject, arms, repeats)| == repeats * |arms|
    ensures 0 <= (r - 1) * |arms| + a < repeats * |arms|
    ensures Repeated(subject, arms, repeats)[(r - 1) * |arms| + a] == Started(subject, r, arms[a])
  {
    hide Armed;
    ArmedAt(subject, repeats, arms, a);
    Block(repeats - 1, |arms|);
    if repeats == 1 {
      assert Repeated(subject, arms, 0) == [];
    } else if r < repeats {
      RepeatedAt(subject, arms, repeats - 1, r, a);
    } else {
      RepeatedAt(subject, arms, repeats - 1, 1, a);
    }
  }

  lemma Block(n: nat, width: nat)
    ensures (n + 1) * width == n * width + width && n * width >= 0
  {
  }

  /** Every subject is debated in every repeat by every arm: the debates are numbered by subject, repeat and
      arm, and there are no others. */
  lemma {:induction false} EveryDebateIsBuilt(subjects: seq<Subject>, arms: seq<Arm>, repeats: int, n: nat, r: nat, a: nat)
    requires n < |subjects| && 1 <= r <= Max(1, repeats) && a < |arms|
    ensures var width := Max(1, repeats) * |arms|;
            && |Initial(subjects, arms, repeats)| == |subjects| * width
            && 0 <= n * width + (r - 1) * |arms| + a < |subjects| * width
            && Initial(subjects, arms, repeats)[n * width + (r - 1) * |arms| + a] == Started(subjects[n], r, arms[a])
  {
    hide Repeated;
    var width, most := Max(1, repeats) * |arms|, subjects[..|subjects| - 1];
    RepeatedAt(subjects[|subjects| - 1], arms, Max(1, repeats), r, a);
    Block(|subjects| - 1, width);
    if |subjects| == 1 {
      assert Initial(most, arms, repeats) == [];
    } else if n < |subjects| - 1 {
      EveryDebateIsBuilt(most, arms, repeats, n, r, a);
    } else {
      EveryDebateIsBuilt(most, arms, repeats, 0, r, a);
    }
  }
}
