/** Probing numbered keys for the first free one, as the LLM call ledger (`kernel/llm_ledger.py`)
    and the broker stops (`contracts/broker_stops.py`) do, and the ledger itself. */
module Probing {
  import opened CreatedAt

  /** `n` in decimal. */
  function Decimal(n: nat): (r: string)
    ensures r != [] && (n >= 10 ==> |r| > 1) && (n < 10 ==> |r| == 1)
    ensures forall i :: 0 <= i < |r| ==> '0' <= r[i] <= '9'
  {
    if n < 10 then [Digit(n)] else Decimal(n / 10) + [Digit(n % 10)]
  }

  lemma {:induction false} DecimalInjective(a: nat, b: nat)
    requires Decimal(a) == Decimal(b)
    ensures a == b
  {
    var x, y := Decimal(a), Decimal(b);
    assert x[|x| - 1] == Digit(a % 10) && y[|y| - 1] == Digit(b % 10);
    if a >= 10 {
      assert x[..|x| - 1] == Decimal(a / 10) && y[..|y| - 1] == Decimal(b / 10);
      DecimalInjective(a / 10, b / 10);
    }
  }

  /** The key of attempt `n`: the base key itself, then the base with a numbered suffix. */
  function Candidate(base: string, separator: string, n: nat): string {
    if n == 0 then base else base + separator + Decimal(n)
  }

  lemma CandidateInjective(base: string, separator: string, m: nat, n: nat)
    requires Candidate(base, separator, m) == Candidate(base, separator, n)
    ensures m == n
  {
    var a, b := Candidate(base, separator, m), Candidate(base, separator, n);
    var k := |base| + |separator|;
    if m > 0 && n > 0 {
      assert a[k..] == Decimal(m) && b[k..] == Decimal(n);
      DecimalInjective(m, n);
    }
  }

  /** Probed keys are all different, so a store of finitely many keys runs out of them. */
  lemma {:induction false} ProbesFit(taken: set<string>, base: string, separator: string, n: nat)
    requires forall m: nat :: m < n ==> Candidate(base, separator, m) in taken
    ensures n <= |taken|
  {
    if n > 0 {
      var last := Candidate(base, separator, n - 1);
      forall m: nat | m < n - 1 ensures Candidate(base, separator, m) in taken - {last} {
        if Candidate(base, separator, m) == last { CandidateInjective(base, separator, m, n - 1); }
      }
      ProbesFit(taken - {last}, base, separator, n - 1);
    }
  }

  ghost predicate IsFirstFree(taken: set<string>, base: string, separator: string, n: nat) {
    && Candidate(base, separator, n) !in taken
    && forall m: nat :: m < n ==> Candidate(base, separator, m) in taken
  }

  /** The probing loop: it ends in every finite store, at the first key never used. */
  method FirstFree(taken: set<string>, base: string, separator: string) returns (n: nat)
    ensures IsFirstFree(taken, base, separator, n)
  {
    n := 0;
    ProbesFit(taken, base, separator, 0);
    while Candidate(base, separator, n) in taken
      invariant forall m: nat :: m < n ==> Candidate(base, separator, m) in taken
      invariant n <= |taken|
      decreases |taken| - n
    {
      n := n + 1;
      ProbesFit(taken, base, separator, n);
    }
  }

  // ----- the LLM call ledger -------------------------------------------------------------------

  const REPEAT := ":repeat-"

  class CallLedger<Row> {
    var rows: map<string, Row>

    constructor ()
      ensures rows == map[]
    {
      rows := map[];
    }

    /** `write_llm_call`: the row goes under the first free key of its agent and correlation. */
    method WriteLlmCall(base: string, row: Row) returns (key: string)
      modifies this
      ensures key !in old(rows) && rows == old(rows)[key := row]
      ensures exists n: nat :: key == Candidate(base, REPEAT, n) && IsFirstFree(old(rows).Keys, base, REPEAT, n)
    {
      var n := FirstFree(rows.Keys, base, REPEAT);
      key := Candidate(base, REPEAT, n);
      rows := rows[key := row];
    }
  }

  /** One call as written: the base key it asked for, the row, and the key it got. */
  datatype Written<Row> = Written(base: string, row: Row, key: string)

  /** The ledger before, between and after the calls. */
  ghost predicate Wrote<Row(!new)>(states: seq<map<string, Row>>, calls: seq<Written<Row>>) {
    && |states| == |calls| + 1
    && forall i :: 0 <= i < |calls| ==> WroteOne(states[i], calls[i], states[i + 1])
  }

  /** What `WriteLlmCall` promises of one call. */
  ghost predicate WroteOne<Row(!new)>(before: map<string, Row>, call: Written<Row>, after: map<string, Row>) {
    && (exists n: nat :: call.key == Candidate(call.base, REPEAT, n) && IsFirstFree(before.Keys, call.base, REPEAT, n))
    && after == before[call.key := call.row]
  }

  /** Every call has a key of its own that the ledger did not have before, and holds its row there;
      everything else is as it was. */
  ghost predicate OwnRows<Row(!new)>(before: map<string, Row>, calls: seq<Written<Row>>, after: map<string, Row>) {
    && (forall i :: 0 <= i < |calls| ==>
          calls[i].key !in before && calls[i].key in after && after[calls[i].key] == calls[i].row)
    && (forall i, j :: 0 <= i < j < |calls| ==> calls[i].key != calls[j].key)
    && (forall key :: key in before ==> key in after && after[key] == before[key])
    && |after| == |before| + |calls|
  }

  lemma FreshKeyKeepsOwnRows<Row(!new)>(before: map<string, Row>, calls: seq<Written<Row>>, middle: map<string, Row>,
                                        call: Written<Row>)
    requires OwnRows(before, calls, middle) && call.key !in middle
    ensures OwnRows(before, calls + [call], middle[call.key := call.row])
  {
    var all, after := calls + [call], middle[call.key := call.row];
    assert after.Keys == middle.Keys + {call.key};
    assert |after.Keys| == |after| && |middle.Keys| == |middle|;
    forall i | 0 <= i < |all|
      ensures all[i].key !in before && all[i].key in after && after[all[i].key] == all[i].row
    {
      if i < |calls| { assert all[i] == calls[i]; }
    }
  }

  /** No call is ever merged into another: whatever bases repeat, every row written stays as it was
      written, under a key of its own, beside everything stored before. */
  lemma {:induction false} EveryCallIsItsOwnRow<Row(!new)>(states: seq<map<string, Row>>, calls: seq<Written<Row>>, n: nat)
    requires Wrote(states, calls) && n <= |calls|
    ensures OwnRows(states[0], calls[..n], states[n])
  {
    if n == 0 {
      assert calls[..0] == [];
    } else {
      EveryCallIsItsOwnRow(states, calls, n - 1);
      assert WroteOne(states[n - 1], calls[n - 1], states[n]);
      hide Wrote, OwnRows, Candidate, Decimal;
      FreshKeyKeepsOwnRows(states[0], calls[..n - 1], states[n - 1], calls[n - 1]);
      assert calls[..n - 1] + [calls[n - 1]] == calls[..n];
    }
  }
}
