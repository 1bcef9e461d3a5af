/** The sequential debate (`kernel/deliberation.py`): Defender and Challenger alternate for a
    bounded number of rounds, then the Judge rules. A model call is an arbitrary function of its
    prompt; `json` stands for the JSON reading of a judge's answer. */
module Debate {
  import opened Options

  datatype Role = Defender | Challenger | Judge

  datatype Step = Step(role: Role, number: int)

  datatype Turn = Turn(role: Role, number: int, text: string)

  datatype Proposition = Proposition(decision: string, context: string)

  /** The role's system prompt and the user prompt rendered from the rest. */
  datatype Prompt = Prompt(role: Role, proposition: Proposition, transcript: seq<Turn>)

  datatype Completion = Said(text: string) | Stopped

  type Llm = Prompt -> Completion

  datatype Verdict = Verdict(ruling: string, rationale: string)

  datatype Parsed = Ruled(verdict: Verdict) | Unreadable

  datatype Ending = Finished(transcript: seq<Turn>, verdict: Verdict) | Raised

  // ----- str.strip -----------------------------------------------------------------------------

  /** The characters Python's `str.strip` removes. */
  predicate IsSpace(c: char) {
    || '\U{9}' <= c <= '\U{D}' || '\U{1C}' <= c <= '\U{20}' || c == '\U{85}' || c == '\U{A0}'
    || c == '\U{1680}' || '\U{2000}' <= c <= '\U{200A}' || c == '\U{2028}' || c == '\U{2029}'
    || c == '\U{202F}' || c == '\U{205F}' || c == '\U{3000}'
  }

  /** The 29 characters of Python's whitespace, one by one. */
  const WHITESPACE: set<int> :=
    {0x9, 0xA, 0xB, 0xC, 0xD, 0x1C, 0x1D, 0x1E, 0x1F, 0x20, 0x85, 0xA0, 0x1680,
     0x2000, 0x2001, 0x2002, 0x2003, 0x2004, 0x2005, 0x2006, 0x2007, 0x2008, 0x2009, 0x200A,
     0x2028, 0x2029, 0x202F, 0x205F, 0x3000}

  lemma SpacesAre(c: char)
    ensures IsSpace(c) <==> c as int in WHITESPACE
  {
  }

  function StripLeft(s: string): string {
    if s != [] && IsSpace(s[0]) then StripLeft(s[1..]) else s
  }

  function StripRight(s: string): string {
    if s != [] && IsSpace(s[|s| - 1]) then StripRight(s[..|s| - 1]) else s
  }

  function Strip(s: string): string { StripRight(StripLeft(s)) }

  lemma {:induction false} StripRightKeepsStart(s: string)
    requires s != [] && !IsSpace(s[0])
    ensures StripRight(s) != [] && StripRight(s)[0] == s[0]
  {
    if IsSpace(s[|s| - 1]) { StripRightKeepsStart(s[..|s| - 1]); }
  }

  lemma {:induction false} StripRightDone(s: string)
    ensures StripRight(StripRight(s)) == StripRight(s)
  {
    if s != [] && IsSpace(s[|s| - 1]) { StripRightDone(s[..|s| - 1]); }
  }

  lemma {:induction false} StripLeftDone(s: string)
    ensures StripLeft(s) != [] ==> !IsSpace(StripLeft(s)[0])
  {
    if s != [] && IsSpace(s[0]) { StripLeftDone(s[1..]); }
  }

  lemma StripDone(s: string)
    ensures Strip(Strip(s)) == Strip(s)
  {
    StripLeftDone(s);
    if StripLeft(s) != [] { StripRightKeepsStart(StripLeft(s)); }
    StripRightDone(StripLeft(s));
  }

  lemma {:induction false} StripLeftIs(s: string) returns (i: nat)
    ensures i <= |s| && StripLeft(s) == s[i..] && (forall k :: 0 <= k < i ==> IsSpace(s[k])) && (i < |s| ==> !IsSpace(s[i]))
  {
    hide IsSpace;
    if s != [] && IsSpace(s[0]) {
      var j := StripLeftIs(s[1..]);
      i := j + 1;
      assert forall k :: 0 < k < i ==> s[k] == s[1..][k - 1];
    } else {
      i := 0;
    }
  }

  lemma {:induction false} StripRightIs(s: string) returns (j: nat)
    ensures j <= |s| && StripRight(s) == s[..j] && (forall k :: j <= k < |s| ==> IsSpace(s[k])) && (j > 0 ==> !IsSpace(s[j - 1]))
  {
    hide IsSpace;
    if s != [] && IsSpace(s[|s| - 1]) {
      j := StripRightIs(s[..|s| - 1]);
    } else {
      j := |s|;
    }
  }

  /** `strip` cuts off exactly the outer whitespace. */
  lemma StripIs(s: string) returns (i: nat, j: nat)
    ensures i <= j <= |s| && Strip(s) == s[i..j]
    ensures forall k :: 0 <= k < i || j <= k < |s| ==> IsSpace(s[k])
    ensures i < j ==> !IsSpace(s[i]) && !IsSpace(s[j - 1])
  {
    hide IsSpace;
    i := StripLeftIs(s);
    var n := StripRightIs(s[i..]);
    j := i + n;
    assert forall k :: j <= k < |s| ==> s[k] == s[i..][k - i];
  }

  /** The answer has something in it besides whitespace. */
  predicate HasText(s: string) { exists c :: c in s && !IsSpace(c) }

  lemma BlankExactly(s: string)
    ensures Strip(s) == "" <==> !HasText(s)
  {
    hide IsSpace, Strip;
    var i, j := StripIs(s);
    if HasText(s) {
      var c :| c in s && !IsSpace(c);
      var k :| 0 <= k < |s| && s[k] == c;
    }
    if i < j { assert s[i] in s; }
  }

  // ----- one debate ----------------------------------------------------------------------------

  function Max(a: int, b: int): int { if a < b then b else a }

  /** The turns of the first `rounds` rounds. */
  function ArguingSteps(rounds: nat): (r: seq<Step>)
    ensures |r| == 2 * rounds
  {
    if rounds == 0 then []
    else ArguingSteps(rounds - 1) + [Step(Defender, rounds), Step(Challenger, rounds)]
  }

  lemma {:induction false} ArguingStepsAt(rounds: nat, number: nat)
    requires 1 <= number <= rounds
    ensures ArguingSteps(rounds)[2 * number - 2] == Step(Defender, number)
    ensures ArguingSteps(rounds)[2 * number - 1] == Step(Challenger, number)
  {
    if number < rounds { ArguingStepsAt(rounds - 1, number); }
  }

  /** `debate_turn`: an empty answer raises. */
  function TakeTurn(llm: Llm, p: Proposition, step: Step, transcript: seq<Turn>): Option<Turn> {
    match llm(Prompt(step.role, p, transcript))
    case Stopped => None
    case Said(text) => if Strip(text) == "" then None else Some(Turn(step.role, step.number, Strip(text)))
  }

  function Argue(llm: Llm, p: Proposition, steps: seq<Step>, transcript: seq<Turn>): Option<seq<Turn>>
    decreases |steps|
  {
    if steps == [] then Some(transcript)
    else
      match TakeTurn(llm, p, steps[0], transcript)
      case None => None
      case Some(turn) => Argue(llm, p, steps[1..], transcript + [turn])
  }

  /** `parse_verdict`. */
  function ParseVerdict(raw: string, json: string -> Parsed): Parsed {
    if Strip(raw) == "" then Unreadable else json(raw)
  }

  /** `judge_verdict`: a stopped completion is an unreadable verdict. */
  function Rule(judge: Llm, p: Proposition, transcript: seq<Turn>, json: string -> Parsed): Parsed {
    match judge(Prompt(Judge, p, transcript))
    case Stopped => Unreadable
    case Said(raw) => ParseVerdict(raw, json)
  }

  function Deliberation(llm: Llm, judge: Llm, p: Proposition, maxRounds: int, json: string -> Parsed): Ending {
    match Argue(llm, p, ArguingSteps(Max(1, maxRounds)), [])
    case None => Raised
    case Some(transcript) =>
      match Rule(judge, p, transcript, json)
      case Unreadable => Raised
      case Ruled(verdict) => Finished(transcript, verdict)
  }

  /** The nested loops of `deliberate`. */
  method Deliberate(llm: Llm, judge: Llm, p: Proposition, maxRounds: int, json: string -> Parsed) returns (r: Ending)
    ensures r == Deliberation(llm, judge, p, maxRounds, json)
  {
    var rounds := Max(1, maxRounds);
    ghost var all := ArguingSteps(rounds);
    var transcript: seq<Turn> := [];
    for number := 1 to rounds + 1
      invariant Argue(llm, p, all, []) == Argue(llm, p, all[2 * (number - 1)..], transcript)
    {
      var roles := [Defender, Challenger];
      for k := 0 to 2
        invariant Argue(llm, p, all, []) == Argue(llm, p, all[2 * (number - 1) + k..], transcript)
      {
        ArguingStepsAt(rounds, number);
        var turn := TakeTurn(llm, p, Step(roles[k], number), transcript);
        if turn.None? { return Raised; }
        transcript := transcript + [turn.value];
      }
    }
    var ruling := Rule(judge, p, transcript, json);
    r := if ruling.Ruled? then Finished(transcript, ruling.verdict) else Raised;
  }

  /** `turn` is what `step` asks for, and not blank. */
  predicate Speaks(turn: Turn, step: Step) {
    turn.role == step.role && turn.number == step.number && turn.text != ""
  }

  /** A finished debate holds every round's two turns, in order, none of them blank. */
  lemma FinishedDebateIsComplete(llm: Llm, judge: Llm, p: Proposition, maxRounds: int, json: string -> Parsed)
    requires Deliberation(llm, judge, p, maxRounds, json).Finished?
    ensures var t, steps := Deliberation(llm, judge, p, maxRounds, json).transcript, ArguingSteps(Max(1, maxRounds));
            |t| == |steps| && forall i :: 0 <= i < |t| ==> Speaks(t[i], steps[i])
  {
    ArgueFollowsSteps(llm, p, ArguingSteps(Max(1, maxRounds)), []);
  }

  lemma {:induction false} ArgueFollowsSteps(llm: Llm, p: Proposition, steps: seq<Step>, transcript: seq<Turn>)
    requires Argue(llm, p, steps, transcript).Some?
    ensures var t := Argue(llm, p, steps, transcript).value;
            && |t| == |transcript| + |steps| && transcript <= t
            && forall i :: |transcript| <= i < |t| ==> Speaks(t[i], steps[i - |transcript|])
    decreases |steps|
  {
    if steps != [] {
      var turn := TakeTurn(llm, p, steps[0], transcript).value;
      ArgueFollowsSteps(llm, p, steps[1..], transcript + [turn]);
      var t := Argue(llm, p, steps, transcript).value;
      assert t[|transcript|] == (transcript + [turn])[|transcript|];
    }
  }
}
