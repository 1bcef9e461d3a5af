/** Resting broker stops of a position (`contracts/broker_stops.py`, `contracts/broker_lifecycle.py`):
    when a stop fact is live, under which numbered key the next one goes, and what every history of
    placements, replacements, cancellations and broker reads keeps. */
module BrokerStops {
  import opened Options
  import opened Props
  import opened GraphStore
  import opened Probing

  datatype Id = StopNode(key: string) | FillNode(key: string)

  /** The nodes in view; `fills` lists the Fill keys in the order the store returns them. */
  datatype Book = Book(nodes: map<Id, Node>, fills: seq<string>)

  const ATTEMPT := "#"

  function AttemptKey(base: string, n: nat): string { Candidate(base, ATTEMPT, n) }

  // ----- liveness ------------------------------------------------------------------------------

  predicate TruthyText(p: Props, name: string) {
    name in p && p[name].Text? && p[name].s != ""
  }

  predicate Marked(p: Props) {
    TruthyText(p, "cancelled_at") || TruthyText(p, "replaced_at")
  }

  /** `str.lower`, of which only the letters of the two terminal words matter. */
  function Lower(s: string): (r: string)
    ensures |r| == |s|
  {
    seq(|s|, i requires 0 <= i < |s| => if 'A' <= s[i] <= 'Z' then (s[i] as int + 32) as char else s[i])
  }

  predicate Terminal(p: Props) {
    STATUS in p && p[STATUS].Text? && (Lower(p[STATUS].s) == "filled" || Lower(p[STATUS].s) == "rejected")
  }

  /** The first listed Fill carrying the broker's id. */
  function FillByOrder(b: Book, fills: seq<string>, orderId: string): Option<Props> {
    if fills == [] then None
    else if FillNode(fills[0]) in b.nodes && HasText(b.nodes[FillNode(fills[0])].props, "broker_order_id", orderId)
      then Some(b.nodes[FillNode(fills[0])].props)
    else FillByOrder(b, fills[1..], orderId)
  }

  function SiblingFill(b: Book, key: string): Option<Props>
    requires StopNode(key) in b.nodes
  {
    var stop := b.nodes[StopNode(key)].props;
    if FillNode(key) in b.nodes then Some(b.nodes[FillNode(key)].props)
    else if !TruthyText(stop, "broker_order_id") then None
    else FillByOrder(b, b.fills, stop["broker_order_id"].s)
  }

  predicate Live(b: Book, key: string)
    requires StopNode(key) in b.nodes
  {
    && !Marked(b.nodes[StopNode(key)].props)
    && (SiblingFill(b, key).Some? ==> !Terminal(SiblingFill(b, key).value))
  }

  const CAPITALS := "ABCDEFGHIJKLMNOPQRSTUVWXYZ"
  const SMALL := "abcdefghijklmnopqrstuvwxyz"

  /** `a` is `b`, or `b`'s capital. */
  ghost predicate SameLetter(a: char, b: char) {
    a == b || exists k :: 0 <= k < 26 && a == CAPITALS[k] && b == SMALL[k]
  }

  /** `t` spells the small-lettered `word`, in whatever case. */
  ghost predicate Spells(t: string, word: string) {
    |t| == |word| && forall i :: 0 <= i < |t| ==> SameLetter(t[i], word[i])
  }

  lemma LetterLowered(a: char, b: char)
    requires 'a' <= b <= 'z'
    ensures Lower([a]) == [b] <==> SameLetter(a, b)
  {
    var k := b as int - 'a' as int;
    LettersAt(k);
    assert Lower([a])[0] == if 'A' <= a <= 'Z' then (a as int + 32) as char else a;
    forall j | 0 <= j < 26 ensures CAPITALS[j] == ('A' as int + j) as char && SMALL[j] == ('a' as int + j) as char {
      LettersAt(j);
    }
  }

  lemma LettersAt(k: int)
    requires 0 <= k < 26
    ensures |CAPITALS| == |SMALL| == 26
    ensures CAPITALS[k] == ('A' as int + k) as char && SMALL[k] == ('a' as int + k) as char
  {
  }

  lemma SpellsLowered(t: string, word: string)
    requires forall i :: 0 <= i < |word| ==> 'a' <= word[i] <= 'z'
    ensures Lower(t) == word <==> Spells(t, word)
  {
    if |t| == |word| {
      forall i | 0 <= i < |t| ensures Lower(t)[i] == word[i] <==> SameLetter(t[i], word[i]) {
        LetterLowered(t[i], word[i]);
        assert Lower([t[i]])[0] == Lower(t)[i];
      }
    }
  }

  /** A Fill's status says that its order is over. */
  ghost predicate SaysOver(p: Props) {
    STATUS in p && p[STATUS].Text? && (Spells(p[STATUS].s, "filled") || Spells(p[STATUS].s, "rejected"))
  }

  /** The `i`th listed Fill carries the broker's id of the stop. */
  ghost predicate Carries(b: Book, stop: Props, i: nat) {
    && i < |b.fills| && FillNode(b.fills[i]) in b.nodes
    && var fill := b.nodes[FillNode(b.fills[i])].props;
       && "broker_order_id" in stop && stop["broker_order_id"].Text? && stop["broker_order_id"].s != ""
       && "broker_order_id" in fill && fill["broker_order_id"] == stop["broker_order_id"]
  }

  ghost predicate FirstCarrier(b: Book, stop: Props, i: nat) {
    Carries(b, stop, i) && forall j: nat :: j < i ==> !Carries(b, stop, j)
  }

  /** A stop is dead exactly when it carries a time of cancellation or replacement, or its Fill says its
      order is over: the one under its own key, or else the first listed with its broker id. */
  lemma DeadExactly(b: Book, key: string)
    requires StopNode(key) in b.nodes
    ensures var stop := b.nodes[StopNode(key)].props;
            !Live(b, key) <==>
              || (exists name :: name in {"cancelled_at", "replaced_at"} && name in stop && stop[name].Text? && stop[name].s != "")
              || (if FillNode(key) in b.nodes then SaysOver(b.nodes[FillNode(key)].props)
                  else exists i: nat :: FirstCarrier(b, stop, i) && SaysOver(b.nodes[FillNode(b.fills[i])].props))
  {
    var stop := b.nodes[StopNode(key)].props;
    MarkedIs(stop);
    hide Marked, Carries, SaysOver, Terminal;
    if FillNode(key) in b.nodes {
      TerminalIs(b.nodes[FillNode(key)].props);
    } else if TruthyText(stop, "broker_order_id") {
      var i := CarrierFound(b, stop, 0);
      if i < |b.fills| {
        TerminalIs(b.nodes[FillNode(b.fills[i])].props);
        assert FirstCarrier(b, stop, i);
        assert forall j: nat :: FirstCarrier(b, stop, j) ==> j == i;
      }
    } else {
      NoCarrier(b, stop);
    }
  }

  lemma NoCarrier(b: Book, stop: Props)
    requires !TruthyText(stop, "broker_order_id")
    ensures forall i: nat :: !Carries(b, stop, i)
  {
  }

  lemma MarkedIs(p: Props)
    ensures Marked(p) <==> exists name :: name in {"cancelled_at", "replaced_at"} && name in p && p[name].Text? && p[name].s != ""
  {
    assert "cancelled_at" in {"cancelled_at", "replaced_at"} && "replaced_at" in {"cancelled_at", "replaced_at"};
  }

  lemma TerminalIs(p: Props)
    ensures Terminal(p) <==> SaysOver(p)
  {
    if STATUS in p && p[STATUS].Text? {
      SpellsLowered(p[STATUS].s, "filled");
      SpellsLowered(p[STATUS].s, "rejected");
    }
  }

  lemma {:induction false} CarrierFound(b: Book, stop: Props, from: nat) returns (i: nat)
    requires from <= |b.fills| && TruthyText(stop, "broker_order_id")
    ensures from <= i <= |b.fills| && forall j: nat :: from <= j < i ==> !Carries(b, stop, j)
    ensures i < |b.fills| ==> Carries(b, stop, i)
    ensures FillByOrder(b, b.fills[from..], stop["broker_order_id"].s)
         == if i < |b.fills| then Some(b.nodes[FillNode(b.fills[i])].props) else None
    decreases |b.fills| - from
  {
    i := from;
    if from < |b.fills| && !Carries(b, stop, from) {
      i := CarrierFound(b, stop, from + 1);
      assert b.fills[from..][1..] == b.fills[from + 1..];
    }
  }

  // ----- the two key probes --------------------------------------------------------------------

  ghost function StopKeys(b: Book): set<string> {
    set id | id in b.nodes && id.StopNode? :: id.key
  }

  /** `n` is the first attempt without a fact, and no earlier attempt is live. */
  ghost predicate MayPlace(b: Book, base: string, n: nat) {
    && IsFirstFree(StopKeys(b), base, ATTEMPT, n)
    && forall m: nat :: m < n ==> StopNode(AttemptKey(base, m)) in b.nodes && !Live(b, AttemptKey(base, m))
  }

  /** Finitely many stop facts, so the probes run out of recorded attempts. */
  lemma AttemptsFit(b: Book, base: string, n: nat)
    requires forall m: nat :: m < n ==> StopNode(AttemptKey(base, m)) in b.nodes
    ensures n <= |StopKeys(b)|
    ensures forall m: nat :: m < n ==> Candidate(base, ATTEMPT, m) in StopKeys(b)
    ensures StopNode(AttemptKey(base, n)) !in b.nodes ==> IsFirstFree(StopKeys(b), base, ATTEMPT, n)
  {
    hide Candidate;
    forall m: nat | m < n ensures Candidate(base, ATTEMPT, m) in StopKeys(b) {
      assert StopNode(AttemptKey(base, m)) in b.nodes;
    }
    ProbesFit(StopKeys(b), base, ATTEMPT, n);
  }

  /** `next_broker_stop_order_key`: no key exactly while some attempt, with every one before it
      recorded, is live. */
  method NextKey(b: Book, base: string) returns (n: Option<nat>)
    ensures n.Some? ==> MayPlace(b, base, n.value)
    ensures n.None? <==>
      exists m: nat :: && (forall k: nat :: k <= m ==> StopNode(AttemptKey(base, k)) in b.nodes)
                       && Live(b, AttemptKey(base, m))
  {
    hide Live, AttemptKey, StopKeys;
    var ordinal := 0;
    AttemptsFit(b, base, 0);
    while true
      invariant forall m: nat :: m < ordinal ==> StopNode(AttemptKey(base, m)) in b.nodes && !Live(b, AttemptKey(base, m))
      invariant ordinal <= |StopKeys(b)|
      decreases |StopKeys(b)| - ordinal
    {
      var key := AttemptKey(base, ordinal);
      AttemptsFit(b, base, ordinal);
      if StopNode(key) !in b.nodes { return Some(ordinal); }
      if Live(b, key) { return None; }
      ordinal := ordinal + 1;
      AttemptsFit(b, base, ordinal);
    }
  }

  /** `free_broker_stop_order_key`, where a replacement goes. */
  method FreeKey(b: Book, base: string) returns (n: nat)
    ensures IsFirstFree(StopKeys(b), base, ATTEMPT, n)
  {
    hide AttemptKey, StopKeys;
    n := 0;
    AttemptsFit(b, base, 0);
    while StopNode(AttemptKey(base, n)) in b.nodes
      invariant forall m: nat :: m < n ==> StopNode(AttemptKey(base, m)) in b.nodes
      invariant n <= |StopKeys(b)|
      decreases |StopKeys(b)| - n
    {
      n := n + 1;
      AttemptsFit(b, base, n);
    }
    AttemptsFit(b, base, n);
  }

  // ----- merges never bring an ended stop back -------------------------------------------------

  function Merged(b: Book, id: Id, props: Props): Book {
    Book(AfterMerge(b.nodes, Merge(id, props, 1)),
         if id.FillNode? && id !in b.nodes then b.fills + [id.key] else b.fills)
  }

  /** A stop ended by evidence of its own: a marker, or a terminal Fill under its own key. */
  predicate Ended(b: Book, key: string) {
    && StopNode(key) in b.nodes
    && (Marked(b.nodes[StopNode(key)].props)
        || (FillNode(key) in b.nodes && Terminal(b.nodes[FillNode(key)].props)))
  }

  lemma EvidenceStays(p: Props, q: Props)
    requires Keeps(p, q)
    ensures Marked(p) ==> Marked(q)
    ensures Terminal(p) ==> Terminal(q)
  {
    hide PyEqual;
    forall name | name in {"cancelled_at", "replaced_at"} && TruthyText(p, name) ensures TruthyText(q, name) {
      assert |name| == 12 || |name| == 11;
      assert name !in COMPLETION;
      TextIsItself(p[name], q[name]);
    }
    if Terminal(p) && PyEqual(p[STATUS], q[STATUS]) { TextIsItself(p[STATUS], q[STATUS]); }
    if Terminal(p) { assert |p[STATUS].s| == 6 || |p[STATUS].s| == 8; assert |"partial"| == 7; }
  }

  lemma NodeStays(b: Book, id: Id, props: Props, other: Id)
    requires other in b.nodes
    ensures other in Merged(b, id, props).nodes
    ensures Keeps(b.nodes[other].props, Merged(b, id, props).nodes[other].props)
    ensures b.nodes[other].schemaVersion == Merged(b, id, props).nodes[other].schemaVersion
  {
    hide Accepts, Keeps, Union, FreezeProps;
    KeepsReflexive(b.nodes[other].props);
    if id == other && MergeAccepted(b.nodes, Merge(id, props, 1)) { MergeKeeps(b.nodes[other].props, props); }
  }

  lemma EndedStays(b: Book, id: Id, props: Props, key: string)
    requires Ended(b, key)
    ensures Ended(Merged(b, id, props), key)
  {
    hide Merged, Keeps, Marked, Terminal;
    NodeStays(b, id, props, StopNode(key));
    EvidenceStays(b.nodes[StopNode(key)].props, Merged(b, id, props).nodes[StopNode(key)].props);
    if FillNode(key) in b.nodes {
      NodeStays(b, id, props, FillNode(key));
      EvidenceStays(b.nodes[FillNode(key)].props, Merged(b, id, props).nodes[FillNode(key)].props);
    }
  }

  function MergedAll(b: Book, run: seq<(Id, Props)>): Book {
    if run == [] then b else Merged(MergedAll(b, run[..|run| - 1]), run[|run| - 1].0, run[|run| - 1].1)
  }

  lemma {:induction false} EndedIsFinal(b: Book, run: seq<(Id, Props)>, key: string)
    requires Ended(b, key)
    ensures Ended(MergedAll(b, run), key) && !Live(MergedAll(b, run), key)
  {
    hide Merged, Marked, Terminal;
    if run != [] {
      EndedIsFinal(b, run[..|run| - 1], key);
      EndedStays(MergedAll(b, run[..|run| - 1]), run[|run| - 1].0, run[|run| - 1].1, key);
    }
  }

  /** A stop is dead after every further run of merges exactly when it ended by evidence of its own;
      one that only a Fill found by broker id calls dead comes back as soon as a Fill without a
      terminal status is written under its key. */
  lemma DeadForGoodExactly(b: Book, key: string)
    requires StopNode(key) in b.nodes
    ensures Ended(b, key) <==>
      forall run :: StopNode(key) in MergedAll(b, run).nodes && !Live(MergedAll(b, run), key)
  {
    if Ended(b, key) {
      forall run ensures StopNode(key) in MergedAll(b, run).nodes && !Live(MergedAll(b, run), key) {
        EndedIsFinal(b, run, key);
      }
    } else if FillNode(key) in b.nodes {
      var none: seq<(Id, Props)> := [];
      assert MergedAll(b, none) == b && Live(MergedAll(b, none), key);
    } else {
      var run := [(FillNode(key), map[])];
      assert run[..0] == [];
      assert MergedAll(b, run) == Merged(b, FillNode(key), map[]);
      var after := Merged(b, FillNode(key), map[]);
      assert after.nodes == b.nodes[FillNode(key) := Node(FreezeProps(map[]), 1)];
      assert FreezeProps(map[]) == map[];
      assert after.nodes[StopNode(key)] == b.nodes[StopNode(key)];
      assert Live(MergedAll(b, run), key);
    }
  }

  // ----- histories -----------------------------------------------------------------------------

  /** The three properties a replaced stop's old fact gets, all in one merge. */
  const REPLACEMENT: set<string> := {"replaced_at", "replaced_by", "replaced_by_broker_order_id"}

  function Replacement(at: string, newKey: string, orderId: Value): Props {
    map["replaced_at" := Text(at), "replaced_by" := Text(newKey), "replaced_by_broker_order_id" := orderId]
  }

  /** What execution writes about stops (`agents/execution/broker_stop_actions.py`,
      `broker_stop_writes.py`, `broker_stop_realign.py`); `slot` is the Fill attempt chosen for the
      submission. `FillWrite` is any merge of any Fill: refreshes, fills of other orders. */
  datatype Event =
    | Place(base: string, n: nat, slot: nat, fill: Props, stop: Props)
    | Replace(base: string, n: nat, slot: nat, fill: Props, stop: Props, prior: nat, at: string, orderId: Value)
    | Cancel(key: string, at: string)
    | FillWrite(key: string, props: Props)

  predicate NoHash(base: string) { '#' !in base }

  /** The loop over Fill attempts passes only ordinals already taken. */
  ghost predicate SlotReached(b: Book, key: string, slot: nat) {
    forall j: nat :: j < slot ==> FillNode(AttemptKey(key, j)) in b.nodes
  }

  ghost predicate Possible(b: Book, e: Event) {
    match e
    case Place(base, n, slot, _, stop) =>
      NoHash(base) && MayPlace(b, base, n) && SlotReached(b, AttemptKey(base, n), slot) && stop.Keys !! REPLACEMENT
    case Replace(base, n, slot, _, stop, prior, at, _) =>
      && NoHash(base) && IsFirstFree(StopKeys(b), base, ATTEMPT, n) && SlotReached(b, AttemptKey(base, n), slot)
      && StopNode(AttemptKey(base, prior)) in b.nodes && Live(b, AttemptKey(base, prior))
      && stop.Keys !! REPLACEMENT && at != ""
    case Cancel(key, at) => StopNode(key) in b.nodes && at != ""
    case FillWrite(_, _) => true
  }

  function Submitted(b: Book, base: string, n: nat, slot: nat, fill: Props, stop: Props): Book {
    Merged(Merged(b, FillNode(AttemptKey(AttemptKey(base, n), slot)), fill), StopNode(AttemptKey(base, n)), stop)
  }

  function After(b: Book, e: Event): Book {
    match e
    case Place(base, n, slot, fill, stop) => Submitted(b, base, n, slot, fill, stop)
    case Replace(base, n, slot, fill, stop, prior, at, orderId) =>
      Merged(Submitted(b, base, n, slot, fill, stop), StopNode(AttemptKey(base, prior)),
             Replacement(at, AttemptKey(base, n), orderId))
    case Cancel(key, at) => Merged(b, StopNode(key), map["cancelled_at" := Text(at)])
    case FillWrite(key, props) => Merged(b, FillNode(key), props)
  }

  function AfterAll(events: seq<Event>): Book {
    if events == [] then Book(map[], []) else After(AfterAll(events[..|events| - 1]), events[|events| - 1])
  }

  ghost predicate PossibleAll(events: seq<Event>) {
    events == [] || (PossibleAll(events[..|events| - 1]) && Possible(AfterAll(events[..|events| - 1]), events[|events| - 1]))
  }

  // ----- what every history keeps --------------------------------------------------------------

  /** The position has attempts 0 to `c - 1` and no other, each with a Fill under its own key, and
      the first `s` of them are over. */
  ghost predicate Attempts(b: Book, base: string, c: nat, s: nat) {
    && s <= c
    && (forall n: nat :: StopNode(AttemptKey(base, n)) in b.nodes <==> n < c)
    && (forall n: nat :: n < c ==> FillNode(AttemptKey(base, n)) in b.nodes)
    && (forall n: nat :: n < s ==> Ended(b, AttemptKey(base, n)))
  }

  function AllButLast(c: nat): nat { if c == 0 then 0 else c - 1 }

  ghost predicate InOrder(b: Book, base: string) {
    exists c: nat :: Attempts(b, base, c, AllButLast(c))
  }

  predicate CleanProps(p: Props) {
    TruthyText(p, "replaced_at") || p.Keys !! REPLACEMENT
  }

  ghost predicate Clean(b: Book) {
    forall key :: StopNode(key) in b.nodes ==>
      CleanProps(b.nodes[StopNode(key)].props) && b.nodes[StopNode(key)].schemaVersion == 1
  }

  function UpToHash(key: string): string {
    if key == [] || key[0] == '#' then [] else [key[0]] + UpToHash(key[1..])
  }

  lemma {:induction false} BaseIsUpToHash(base: string, rest: string)
    requires NoHash(base) && (rest == [] || rest[0] == '#')
    ensures UpToHash(base + rest) == base
  {
    if base != [] {
      assert base[0] in base && (base + rest)[1..] == base[1..] + rest;
      assert NoHash(base[1..]);
      BaseIsUpToHash(base[1..], rest);
    } else {
      assert base + rest == rest;
    }
  }

  /** Attempts of two positions never share a key. */
  lemma OwnKeys(base: string, other: string, m: nat, n: nat)
    requires NoHash(base) && NoHash(other) && AttemptKey(base, m) == AttemptKey(other, n)
    ensures base == other && m == n
  {
    hide Decimal;
    BaseIsUpToHash(base, if m == 0 then "" else ATTEMPT + Decimal(m));
    BaseIsUpToHash(other, if n == 0 then "" else ATTEMPT + Decimal(n));
    assert base + "" == base && other + "" == other;
    assert base + ATTEMPT + Decimal(m) == base + (ATTEMPT + Decimal(m));
    assert other + ATTEMPT + Decimal(n) == other + (ATTEMPT + Decimal(n));
    CandidateInjective(base, ATTEMPT, m, n);
  }

  lemma MergeKeepsAttempts(b: Book, id: Id, props: Props, base: string, c: nat, s: nat)
    requires Attempts(b, base, c, s)
    requires id.StopNode? ==> id in b.nodes || forall n: nat :: AttemptKey(base, n) != id.key
    ensures Attempts(Merged(b, id, props), base, c, s)
  {
    hide AttemptKey, Ended, AfterMerge;
    var after := Merged(b, id, props);
    forall x | x in b.nodes ensures x in after.nodes { NodeStays(b, id, props, x); }
    assert forall x :: x in after.nodes ==> x in b.nodes || x == id by { OnlyOneMore(b, id, props); }
    forall n: nat | n < s ensures Ended(after, AttemptKey(base, n)) {
      EndedStays(b, id, props, AttemptKey(base, n));
    }
  }

  lemma OnlyOneMore(b: Book, id: Id, props: Props)
    ensures forall x :: x in Merged(b, id, props).nodes ==> x in b.nodes || x == id
    ensures id in Merged(b, id, props).nodes
    ensures id !in b.nodes ==> Merged(b, id, props).nodes[id] == Node(FreezeProps(props), 1)
  {
  }

  lemma NewAttempt(b: Book, props: Props, base: string, c: nat, s: nat)
    requires Attempts(b, base, c, s) && NoHash(base) && FillNode(AttemptKey(base, c)) in b.nodes
    ensures Attempts(Merged(b, StopNode(AttemptKey(base, c)), props), base, c + 1, s)
  {
    var id := StopNode(AttemptKey(base, c));
    var after := Merged(b, id, props);
    forall n: nat | AttemptKey(base, n) == id.key ensures n == c { OwnKeys(base, base, n, c); }
    hide AttemptKey, Ended, AfterMerge;
    OnlyOneMore(b, id, props);
    forall x | x in b.nodes ensures x in after.nodes { NodeStays(b, id, props, x); }
    forall n: nat | n < s ensures Ended(after, AttemptKey(base, n)) {
      EndedStays(b, id, props, AttemptKey(base, n));
    }
  }

  /** The first free key is the next attempt. */
  lemma FirstFreeIsNext(b: Book, base: string, c: nat, s: nat, n: nat)
    requires Attempts(b, base, c, s) && IsFirstFree(StopKeys(b), base, ATTEMPT, n)
    ensures n == c
  {
    hide Ended, Candidate;
    assert forall key :: key in StopKeys(b) <==> StopNode(key) in b.nodes;
    assert StopNode(AttemptKey(base, n)) !in b.nodes;
    assert c < n ==> Candidate(base, ATTEMPT, c) in StopKeys(b);
    assert c < n ==> StopNode(AttemptKey(base, c)) in b.nodes;
  }

  /** Placement waits until every attempt is over for good. */
  lemma NoneLiveMeansAllEnded(b: Book, base: string, c: nat, s: nat)
    requires Attempts(b, base, c, s)
    requires forall m: nat :: m < c ==> StopNode(AttemptKey(base, m)) in b.nodes && !Live(b, AttemptKey(base, m))
    ensures Attempts(b, base, c, c)
  {
    hide AttemptKey, Marked, Terminal;
    forall m: nat | m < c ensures Ended(b, AttemptKey(base, m)) {
      assert FillNode(AttemptKey(base, m)) in b.nodes;
      assert !Live(b, AttemptKey(base, m));
    }
  }

  /** A live attempt is the latest one. */
  lemma LiveIsLatest(b: Book, base: string, c: nat, n: nat)
    requires Attempts(b, base, c, AllButLast(c))
    requires StopNode(AttemptKey(base, n)) in b.nodes && Live(b, AttemptKey(base, n))
    ensures n == c - 1
  {
    hide AttemptKey;
    assert n < c - 1 ==> Ended(b, AttemptKey(base, n));
  }

  /** The submission leaves the position with one more attempt, whatever Fill slot it took. */
  lemma SubmissionAddsOne(b: Book, base: string, n: nat, slot: nat, fill: Props, stop: Props, c: nat, s: nat)
    requires Attempts(b, base, c, s) && NoHash(base) && n == c && SlotReached(b, AttemptKey(base, n), slot)
    ensures Attempts(Submitted(b, base, n, slot, fill, stop), base, c + 1, s)
  {
    var key := AttemptKey(base, n);
    var id := FillNode(AttemptKey(key, slot));
    assert AttemptKey(key, 0) == key;
    if slot > 0 {
      assert FillNode(AttemptKey(key, 0)) in b.nodes;
      NodeStays(b, id, fill, FillNode(key));
    } else {
      OnlyOneMore(b, id, fill);
    }
    hide AttemptKey, Attempts, Merged;
    MergeKeepsAttempts(b, id, fill, base, c, s);
    NewAttempt(Merged(b, id, fill), stop, base, c, s);
  }

  lemma SubmissionElsewhere(b: Book, other: string, n: nat, slot: nat, fill: Props, stop: Props, base: string, c: nat, s: nat)
    requires Attempts(b, base, c, s) && NoHash(base) && NoHash(other) && other != base
    ensures Attempts(Submitted(b, other, n, slot, fill, stop), base, c, s)
  {
    var id := FillNode(AttemptKey(AttemptKey(other, n), slot));
    forall m: nat ensures AttemptKey(base, m) != AttemptKey(other, n) {
      if AttemptKey(base, m) == AttemptKey(other, n) { OwnKeys(base, other, m, n); }
    }
    hide AttemptKey, Attempts, Merged;
    MergeKeepsAttempts(b, id, fill, base, c, s);
    MergeKeepsAttempts(Merged(b, id, fill), StopNode(AttemptKey(other, n)), stop, base, c, s);
  }

  lemma CleanMerge(b: Book, id: Id, props: Props)
    requires Clean(b) && (id.StopNode? ==> TruthyText(props, "replaced_at") || props.Keys !! REPLACEMENT)
    ensures Clean(Merged(b, id, props))
  {
    var after := Merged(b, id, props);
    forall key | StopNode(key) in after.nodes
      ensures CleanProps(after.nodes[StopNode(key)].props) && after.nodes[StopNode(key)].schemaVersion == 1
    {
      OnlyOneMore(b, id, props);
      if id == StopNode(key) {
        if id in b.nodes {
          CleanUnion(b.nodes[id].props, props);
        }
      }
    }
  }

  lemma CleanUnion(p: Props, q: Props)
    requires CleanProps(p) && CleanProps(q)
    ensures Accepts(p, q) ==> CleanProps(FreezeProps(Union(p, q)))
    ensures CleanProps(FreezeProps(q))
  {
    hide PyEqual;
    if Accepts(p, q) && TruthyText(p, "replaced_at") {
      MergeKeeps(p, q);
      assert "replaced_at" !in COMPLETION by { assert |"replaced_at"| == 11; }
      TextIsItself(p["replaced_at"], FreezeProps(Union(p, q))["replaced_at"]);
    }
  }

  /** Marking a live stop replaced is never refused, so it ends the stop. */
  lemma MarkingEnds(b: Book, key: string, at: string, newKey: string, orderId: Value)
    requires Clean(b) && StopNode(key) in b.nodes && !Marked(b.nodes[StopNode(key)].props) && at != ""
    ensures Ended(Merged(b, StopNode(key), Replacement(at, newKey, orderId)), key)
  {
    var p, q := b.nodes[StopNode(key)].props, Replacement(at, newKey, orderId);
    assert CleanProps(p);
    assert q.Keys == REPLACEMENT;
    assert Accepts(p, q);
    assert FreezeProps(Union(p, q))["replaced_at"] == Freeze(Freeze(Text(at)));
  }

  lemma PlaceKeeps(b: Book, e: Event, base: string)
    requires Clean(b) && InOrder(b, base) && NoHash(base) && Possible(b, e) && e.Place?
    ensures Clean(After(b, e)) && InOrder(After(b, e), base)
  {
    hide Clean, CleanProps, AttemptKey, Merged, Live, IsFirstFree, SlotReached;
    var c: nat :| Attempts(b, base, c, AllButLast(c));
    var slotKey := AttemptKey(AttemptKey(e.base, e.n), e.slot);
    CleanMerge(b, FillNode(slotKey), e.fill);
    CleanMerge(Merged(b, FillNode(slotKey), e.fill), StopNode(AttemptKey(e.base, e.n)), e.stop);
    if e.base == base {
      FirstFreeIsNext(b, base, c, AllButLast(c), e.n);
      NoneLiveMeansAllEnded(b, base, c, AllButLast(c));
      SubmissionAddsOne(b, base, e.n, e.slot, e.fill, e.stop, c, c);
      assert AllButLast(c + 1) == c;
    } else {
      SubmissionElsewhere(b, e.base, e.n, e.slot, e.fill, e.stop, base, c, AllButLast(c));
    }
  }

  lemma ReplaceIsClean(b: Book, e: Event)
    requires e.Replace? && Clean(b) && Possible(b, e)
    ensures Clean(After(b, e))
  {
    hide Clean, CleanProps, AttemptKey, Merged, Live, IsFirstFree, SlotReached;
    var slotId, id := FillNode(AttemptKey(AttemptKey(e.base, e.n), e.slot)), StopNode(AttemptKey(e.base, e.n));
    var mark := Replacement(e.at, AttemptKey(e.base, e.n), e.orderId);
    CleanMerge(b, slotId, e.fill);
    CleanMerge(Merged(b, slotId, e.fill), id, e.stop);
    CleanMerge(Submitted(b, e.base, e.n, e.slot, e.fill, e.stop), StopNode(AttemptKey(e.base, e.prior)), mark);
  }

  /** The replaced stop is over, so all attempts before the replacement are. */
  lemma ReplaceOwn(b: Book, e: Event, c: nat)
    requires e.Replace? && Clean(b) && Attempts(b, e.base, c, AllButLast(c)) && Possible(b, e)
    ensures Attempts(After(b, e), e.base, c + 1, AllButLast(c + 1))
  {
    var mid, prior := Submitted(b, e.base, e.n, e.slot, e.fill, e.stop), AttemptKey(e.base, e.prior);
    var mark := Replacement(e.at, AttemptKey(e.base, e.n), e.orderId);
    PriorUntouched(b, e);
    LiveIsLatest(b, e.base, c, e.prior);
    FirstFreeIsNext(b, e.base, c, AllButLast(c), e.n);
    SubmissionIsClean(b, e);
    hide Attempts, Ended, Merged, Clean, AttemptKey, TruthyText, Live, IsFirstFree, SlotReached, Submitted, Marked;
    SubmissionAddsOne(b, e.base, e.n, e.slot, e.fill, e.stop, c, AllButLast(c));
    MergeKeepsAttempts(mid, StopNode(prior), mark, e.base, c + 1, AllButLast(c));
    MarkingEnds(mid, prior, e.at, AttemptKey(e.base, e.n), e.orderId);
    OneMoreEnded(Merged(mid, StopNode(prior), mark), e.base, c + 1, AllButLast(c));
  }

  lemma SubmissionIsClean(b: Book, e: Event)
    requires e.Replace? && Clean(b) && Possible(b, e)
    ensures Clean(Submitted(b, e.base, e.n, e.slot, e.fill, e.stop))
  {
    hide Clean, CleanProps, AttemptKey, Merged, Live, IsFirstFree, SlotReached;
    var slotId := FillNode(AttemptKey(AttemptKey(e.base, e.n), e.slot));
    CleanMerge(b, slotId, e.fill);
    CleanMerge(Merged(b, slotId, e.fill), StopNode(AttemptKey(e.base, e.n)), e.stop);
  }

  lemma ReplaceElsewhere(b: Book, e: Event, base: string, c: nat)
    requires e.Replace? && base != e.base && NoHash(base) && Attempts(b, base, c, AllButLast(c)) && Possible(b, e)
    ensures Attempts(After(b, e), base, c, AllButLast(c))
  {
    PriorUntouched(b, e);
    hide Attempts, Ended, Merged, AttemptKey, Live, IsFirstFree, SlotReached, Marked;
    SubmissionElsewhere(b, e.base, e.n, e.slot, e.fill, e.stop, base, c, AllButLast(c));
    MergeKeepsAttempts(Submitted(b, e.base, e.n, e.slot, e.fill, e.stop), StopNode(AttemptKey(e.base, e.prior)),
                       Replacement(e.at, AttemptKey(e.base, e.n), e.orderId), base, c, AllButLast(c));
  }

  lemma ReplaceKeeps(b: Book, e: Event, base: string)
    requires e.Replace? && Clean(b) && InOrder(b, base) && NoHash(base) && Possible(b, e)
    ensures Clean(After(b, e)) && InOrder(After(b, e), base)
  {
    hide Attempts, After, Possible, Clean;
    var c: nat :| Attempts(b, base, c, AllButLast(c));
    ReplaceIsClean(b, e);
    if e.base == base { ReplaceOwn(b, e, c); } else { ReplaceElsewhere(b, e, base, c); }
  }

  lemma OneMoreEnded(b: Book, base: string, c: nat, s: nat)
    requires Attempts(b, base, c, s) && s < c && Ended(b, AttemptKey(base, s))
    ensures Attempts(b, base, c, s + 1)
  {
    hide Ended, AttemptKey;
  }

  /** The submission of a replacement leaves the replaced stop's own fact alone. */
  lemma PriorUntouched(b: Book, e: Event)
    requires Possible(b, e) && e.Replace?
    ensures var mid := Submitted(b, e.base, e.n, e.slot, e.fill, e.stop);
            var prior := StopNode(AttemptKey(e.base, e.prior));
            prior in mid.nodes && mid.nodes[prior] == b.nodes[prior] && !Marked(mid.nodes[prior].props)
  {
    assert AttemptKey(e.base, e.n) !in StopKeys(b);
    assert StopNode(AttemptKey(e.base, e.n)) !in b.nodes;
  }

  lemma OtherKeeps(b: Book, e: Event, base: string)
    requires Clean(b) && InOrder(b, base) && Possible(b, e) && (e.Cancel? || e.FillWrite?)
    ensures Clean(After(b, e)) && InOrder(After(b, e), base)
  {
    hide Clean, CleanProps, AttemptKey, Merged, Attempts;
    var c: nat :| Attempts(b, base, c, AllButLast(c));
    var id := if e.Cancel? then StopNode(e.key) else FillNode(e.key);
    var props: Props := if e.Cancel? then map["cancelled_at" := Text(e.at)] else e.props;
    assert e.Cancel? ==> props.Keys !! REPLACEMENT by {
      assert |"cancelled_at"| == 12 && |"replaced_at"| == 11 && |"replaced_by_broker_order_id"| == 27;
      assert "cancelled_at"[0] != "replaced_by"[0];
    }
    CleanMerge(b, id, props);
    MergeKeepsAttempts(b, id, props, base, c, AllButLast(c));
  }

  /** Over every history, every position's attempts are numbered without a gap, each has a Fill under
      its own key, and all but the latest are over for good. */
  lemma {:induction false} HistoryInOrder(events: seq<Event>, base: string)
    requires PossibleAll(events) && NoHash(base)
    ensures Clean(AfterAll(events)) && InOrder(AfterAll(events), base)
  {
    if events == [] {
      assert Attempts(AfterAll([]), base, 0, AllButLast(0));
    } else {
      var before, e := AfterAll(events[..|events| - 1]), events[|events| - 1];
      HistoryInOrder(events[..|events| - 1], base);
      hide Clean, InOrder, After, Possible;
      match e
      case Place(_, _, _, _, _) => PlaceKeeps(before, e, base);
      case Replace(_, _, _, _, _, _, _, _) => ReplaceKeeps(before, e, base);
      case _ => OtherKeeps(before, e, base);
    }
  }

  /** At most one stop per position is live, and it is the one placed last: no later attempt exists. */
  lemma OneLiveStop(events: seq<Event>, base: string, m: nat, n: nat)
    requires PossibleAll(events) && NoHash(base)
    requires StopNode(AttemptKey(base, m)) in AfterAll(events).nodes && Live(AfterAll(events), AttemptKey(base, m))
    requires StopNode(AttemptKey(base, n)) in AfterAll(events).nodes
    ensures n <= m && (Live(AfterAll(events), AttemptKey(base, n)) ==> n == m)
  {
    HistoryInOrder(events, base);
    var b := AfterAll(events);
    var c: nat :| Attempts(b, base, c, AllButLast(c));
    hide AttemptKey, Live, AfterAll;
    LiveIsLatest(b, base, c, m);
    if Live(b, AttemptKey(base, n)) { LiveIsLatest(b, base, c, n); }
  }

  /** The next key is withheld exactly while the position has a live stop. */
  lemma PlacementWaitsExactly(events: seq<Event>, base: string)
    requires PossibleAll(events) && NoHash(base)
    ensures (exists n: nat :: MayPlace(AfterAll(events), base, n)) <==> !HasLiveStop(AfterAll(events), base)
  {
    HistoryInOrder(events, base);
    hide Attempts, AfterAll, PossibleAll, MayPlace, HasLiveStop;
    var b := AfterAll(events);
    var c: nat :| Attempts(b, base, c, AllButLast(c));
    if n: nat :| MayPlace(b, base, n) { PlaceableHasNoLiveStop(b, base, c, n); }
    if !HasLiveStop(b, base) { NoLiveStopIsPlaceable(b, base, c); }
  }

  ghost predicate HasLiveStop(b: Book, base: string) {
    exists m: nat :: StopNode(AttemptKey(base, m)) in b.nodes && Live(b, AttemptKey(base, m))
  }

  lemma PlaceableHasNoLiveStop(b: Book, base: string, c: nat, n: nat)
    requires Attempts(b, base, c, AllButLast(c)) && MayPlace(b, base, n)
    ensures !HasLiveStop(b, base)
  {
    FirstFreeIsNext(b, base, c, AllButLast(c), n);
    hide AttemptKey, Live, Ended, IsFirstFree;
  }

  lemma NoLiveStopIsPlaceable(b: Book, base: string, c: nat)
    requires Attempts(b, base, c, AllButLast(c)) && !HasLiveStop(b, base)
    ensures MayPlace(b, base, c)
  {
    hide AttemptKey, Live, Ended, IsFirstFree, StopKeys;
    AttemptsFit(b, base, c);
  }

  /** Once over, an attempt stays over through everything that can follow. */
  lemma {:induction false} OverStaysOver(events: seq<Event>, i: nat, base: string, n: nat)
    requires PossibleAll(events) && NoHash(base) && i <= |events|
    requires StopNode(AttemptKey(base, n)) in AfterAll(events[..i]).nodes
    requires !Live(AfterAll(events[..i]), AttemptKey(base, n))
    ensures StopNode(AttemptKey(base, n)) in AfterAll(events).nodes
    ensures !Live(AfterAll(events), AttemptKey(base, n))
  {
    assert Ended(AfterAll(events), AttemptKey(base, n)) by { OverIsEnded(events, i, base, n); }
  }

  lemma {:induction false} OverIsEnded(events: seq<Event>, i: nat, base: string, n: nat)
    requires PossibleAll(events) && NoHash(base) && i <= |events|
    requires StopNode(AttemptKey(base, n)) in AfterAll(events[..i]).nodes
    requires !Live(AfterAll(events[..i]), AttemptKey(base, n))
    ensures Ended(AfterAll(events), AttemptKey(base, n))
  {
    var key := AttemptKey(base, n);
    if i == |events| {
      assert events[..i] == events;
      HistoryInOrder(events, base);
      assert FillNode(key) in AfterAll(events).nodes;
    } else {
      var most, e := events[..|events| - 1], events[|events| - 1];
      assert most[..i] == events[..i];
      OverIsEnded(most, i, base, n);
      hide Ended, Merged, AttemptKey;
      EventKeepsEnded(AfterAll(most), e, key);
    }
  }

  lemma EventKeepsEnded(b: Book, e: Event, key: string)
    requires Ended(b, key)
    ensures Ended(After(b, e), key)
  {
    hide Ended, Merged, AttemptKey;
    match e
    case Place(base, n, slot, fill, stop) =>
      EndedStays(b, FillNode(AttemptKey(AttemptKey(base, n), slot)), fill, key);
      EndedStays(Merged(b, FillNode(AttemptKey(AttemptKey(base, n), slot)), fill), StopNode(AttemptKey(base, n)), stop, key);
    case Replace(base, n, slot, fill, stop, prior, at, orderId) =>
      EndedStays(b, FillNode(AttemptKey(AttemptKey(base, n), slot)), fill, key);
      EndedStays(Merged(b, FillNode(AttemptKey(AttemptKey(base, n), slot)), fill), StopNode(AttemptKey(base, n)), stop, key);
      EndedStays(Submitted(b, base, n, slot, fill, stop), StopNode(AttemptKey(base, prior)),
                 Replacement(at, AttemptKey(base, n), orderId), key);
    case Cancel(k, at) => EndedStays(b, StopNode(k), map["cancelled_at" := Text(at)], key);
    case FillWrite(k, props) => EndedStays(b, FillNode(k), props, key);
  }

  // ----- which Fill a stop reads ---------------------------------------------------------------

  /** Whatever is later merged into the Fill of the submission that placed the stop, the stop's
      liveness reads that Fill. */
  ghost predicate FollowsItsFill(placed: Book, key: string, slot: nat) {
    forall report: Props ::
      var after, id := Merged(placed, FillNode(AttemptKey(key, slot)), report), FillNode(AttemptKey(key, slot));
      StopNode(key) in after.nodes && id in after.nodes && SiblingFill(after, key) == Some(after.nodes[id].props)
  }

  /** A name the store does not use yet. */
  lemma FreshName(taken: set<string>) returns (name: string)
    ensures name !in taken
  {
    if forall m: nat :: m < |taken| + 1 ==> Candidate("", ATTEMPT, m) in taken {
      ProbesFit(taken, "", ATTEMPT, |taken| + 1);
      assert false;
    }
    var m: nat :| m < |taken| + 1 && Candidate("", ATTEMPT, m) !in taken;
    name := Candidate("", ATTEMPT, m);
  }

  /** A stop follows the Fill of its own submission exactly when the submission took the first slot.
      One retried after a rejection takes a later one, while the stop keeps reading the Fill under its
      own key, which is the rejected submission's. */
  lemma FollowsItsFillExactly(events: seq<Event>, base: string, n: nat, slot: nat, fill: Props, stop: Props)
    requires PossibleAll(events) && Possible(AfterAll(events), Place(base, n, slot, fill, stop))
    ensures FollowsItsFill(After(AfterAll(events), Place(base, n, slot, fill, stop)), AttemptKey(base, n), slot) <==> slot == 0
  {
    var b := AfterAll(events);
    AllFirstVersion(events);
    hide AfterAll, PossibleAll;
    var key, placed := AttemptKey(base, n), After(b, Place(base, n, slot, fill, stop));
    var id := FillNode(AttemptKey(key, slot));
    PlacedHasBoth(b, base, n, slot, fill, stop);
    assert AttemptKey(key, 0) == key;
    hide After, Possible;
    if slot == 0 {
      forall report: Props
        ensures StopNode(key) in Merged(placed, id, report).nodes && id in Merged(placed, id, report).nodes
        ensures SiblingFill(Merged(placed, id, report), key) == Some(Merged(placed, id, report).nodes[id].props)
      {
        NodeStays(placed, id, report, StopNode(key));
        NodeStays(placed, id, report, id);
        hide Merged;
      }
    } else {
      assert AttemptKey(key, slot) != key by { if AttemptKey(key, slot) == key { CandidateInjective(key, ATTEMPT, slot, 0); } }
      hide AttemptKey;
      var name := FreshName(placed.nodes[id].props.Keys + placed.nodes[FillNode(key)].props.Keys);
      NewNameUnread(placed, key, id, name);
    }
  }

  ghost predicate FirstVersion(b: Book) { forall id :: id in b.nodes ==> b.nodes[id].schemaVersion == 1 }

  lemma MergedFirstVersion(b: Book, id: Id, props: Props)
    requires FirstVersion(b)
    ensures FirstVersion(Merged(b, id, props))
  {
  }

  lemma {:induction false} AllFirstVersion(events: seq<Event>)
    ensures FirstVersion(AfterAll(events))
  {
    if events != [] {
      var b, e := AfterAll(events[..|events| - 1]), events[|events| - 1];
      AllFirstVersion(events[..|events| - 1]);
      hide Merged, FirstVersion, AttemptKey;
      match e
      case Place(base, n, slot, fill, stop) => SubmittedFirstVersion(b, base, n, slot, fill, stop);
      case Replace(base, n, slot, fill, stop, prior, at, orderId) =>
        SubmittedFirstVersion(b, base, n, slot, fill, stop);
        MergedFirstVersion(Submitted(b, base, n, slot, fill, stop), StopNode(AttemptKey(base, prior)),
                           Replacement(at, AttemptKey(base, n), orderId));
      case Cancel(k, at) => MergedFirstVersion(b, StopNode(k), map["cancelled_at" := Text(at)]);
      case FillWrite(k, props) => MergedFirstVersion(b, FillNode(k), props);
    }
  }

  lemma SubmittedFirstVersion(b: Book, base: string, n: nat, slot: nat, fill: Props, stop: Props)
    requires FirstVersion(b)
    ensures FirstVersion(Submitted(b, base, n, slot, fill, stop))
  {
    hide Merged, FirstVersion;
    var id := FillNode(AttemptKey(AttemptKey(base, n), slot));
    MergedFirstVersion(b, id, fill);
    MergedFirstVersion(Merged(b, id, fill), StopNode(AttemptKey(base, n)), stop);
  }

  /** After a placement the stop, its Fill slot and the Fill under its own key are all stored. */
  lemma PlacedHasBoth(b: Book, base: string, n: nat, slot: nat, fill: Props, stop: Props)
    requires Possible(b, Place(base, n, slot, fill, stop))
    ensures var key, placed := AttemptKey(base, n), After(b, Place(base, n, slot, fill, stop));
            && StopNode(key) in placed.nodes && FillNode(key) in placed.nodes && FillNode(AttemptKey(key, slot)) in placed.nodes
            && placed.nodes[FillNode(AttemptKey(key, slot))].schemaVersion
               == if FillNode(AttemptKey(key, slot)) in b.nodes then b.nodes[FillNode(AttemptKey(key, slot))].schemaVersion else 1
  {
    var key := AttemptKey(base, n);
    var id, first := FillNode(AttemptKey(key, slot)), Merged(b, FillNode(AttemptKey(key, slot)), fill);
    assert AttemptKey(key, 0) == key;
    assert slot > 0 ==> FillNode(AttemptKey(key, 0)) in b.nodes;
    hide AttemptKey;
    OnlyOneMore(b, id, fill);
    OnlyOneMore(first, StopNode(key), stop);
    if FillNode(key) in b.nodes { NodeStays(b, id, fill, FillNode(key)); }
    if id in b.nodes { NodeStays(b, id, fill, id); }
    NodeStays(first, StopNode(key), stop, FillNode(key));
    NodeStays(first, StopNode(key), stop, id);
  }

  lemma NewNameUnread(placed: Book, key: string, id: Id, name: string)
    requires StopNode(key) in placed.nodes && FillNode(key) in placed.nodes && id in placed.nodes
    requires id.FillNode? && id != FillNode(key)
    requires name !in placed.nodes[id].props && name !in placed.nodes[FillNode(key)].props
    requires placed.nodes[id].schemaVersion == 1
    ensures SiblingFill(Merged(placed, id, map[name := Null]), key)
         != Some(Merged(placed, id, map[name := Null]).nodes[id].props)
  {
    var report: Props := map[name := Null];
    var after := Merged(placed, id, report);
    assert Accepts(placed.nodes[id].props, report);
    assert name in after.nodes[id].props;
    assert after.nodes[FillNode(key)] == placed.nodes[FillNode(key)];
  }

  /** The later slot is reached: a rejected submission leaves its Fill under the base key, the retry
      takes the next slot, and when the broker reports the retry filled the stop still counts as live. */
  lemma FilledRetryStaysLive(base: string)
    requires NoHash(base)
    ensures var retried := FillNode(AttemptKey(base, 1));
            var events := [FillWrite(base, map["status" := Text("rejected")]), Place(base, 0, 1, map[], map[]),
                           FillWrite(AttemptKey(base, 1), map[STATUS := Text("filled")])];
            && PossibleAll(events)
            && retried in AfterAll(events).nodes && Terminal(AfterAll(events).nodes[retried].props)
            && StopNode(base) in AfterAll(events).nodes && Live(AfterAll(events), base)
  {
    var rejected: Props := map["status" := Text("rejected")];
    var report: Props := map[STATUS := Text("filled")];
    var retried := AttemptKey(base, 1);
    var events := [FillWrite(base, rejected), Place(base, 0, 1, map[], map[]), FillWrite(retried, report)];
    assert retried != base by { if retried == base { CandidateInjective(base, ATTEMPT, 1, 0); } }
    assert FreezeProps(rejected) == rejected && FreezeProps(report) == report;
    assert STATUS !in rejected by { assert |STATUS| == 13 && |"status"| == 6; }
    assert Lower("filled") == "filled";
    hide Lower;
    ThreeSteps(events);
    RejectedThenRetried(base, rejected);
    RetryReported(base, rejected, report);
  }

  lemma ThreeSteps(events: seq<Event>)
    requires |events| == 3
    ensures var one := After(Book(map[], []), events[0]);
            && AfterAll(events) == After(After(one, events[1]), events[2])
            && (PossibleAll(events) <==>
                  Possible(Book(map[], []), events[0]) && Possible(one, events[1]) && Possible(After(one, events[1]), events[2]))
  {
    hide After, Possible;
    assert events[..2][..1] == events[..1] && events[..1][..0] == [];
    assert AfterAll(events[..1]) == After(Book(map[], []), events[0]);
    assert AfterAll(events[..2]) == After(AfterAll(events[..1]), events[1]);
    assert PossibleAll(events[..1]) <==> Possible(Book(map[], []), events[0]);
    assert PossibleAll(events[..2]) <==> PossibleAll(events[..1]) && Possible(AfterAll(events[..1]), events[1]);
  }

  function RejectedBook(base: string, rejected: Props): Book {
    Book(map[FillNode(base) := Node(rejected, 1)], [base])
  }

  function RetriedBook(base: string, rejected: Props): Book {
    var retried := AttemptKey(base, 1);
    Book(map[FillNode(base) := Node(rejected, 1), FillNode(retried) := Node(map[], 1), StopNode(base) := Node(map[], 1)],
         [base, retried])
  }

  lemma RejectedThenRetried(base: string, rejected: Props)
    requires NoHash(base) && FreezeProps(rejected) == rejected && AttemptKey(base, 1) != base
    ensures After(Book(map[], []), FillWrite(base, rejected)) == RejectedBook(base, rejected)
    ensures Possible(RejectedBook(base, rejected), Place(base, 0, 1, map[], map[]))
    ensures After(RejectedBook(base, rejected), Place(base, 0, 1, map[], map[])) == RetriedBook(base, rejected)
  {
    var one, two := RejectedBook(base, rejected), RetriedBook(base, rejected);
    assert AttemptKey(base, 0) == base && Candidate(base, ATTEMPT, 0) == base;
    assert StopKeys(one) == {};
    assert SlotReached(one, base, 1);
    hide AttemptKey;
    assert FreezeProps(map[]) == map[];
    var first := Merged(one, FillNode(AttemptKey(base, 1)), map[]);
    assert first.nodes == one.nodes[FillNode(AttemptKey(base, 1)) := Node(map[], 1)];
    assert Merged(first, StopNode(base), map[]).nodes == two.nodes;
  }

  lemma RetryReported(base: string, rejected: Props, report: Props)
    requires FreezeProps(report) == report && AttemptKey(base, 1) != base && STATUS !in rejected && Terminal(report)
    ensures var retried, b := AttemptKey(base, 1), After(RetriedBook(base, rejected), FillWrite(AttemptKey(base, 1), report));
            && FillNode(retried) in b.nodes && Terminal(b.nodes[FillNode(retried)].props)
            && StopNode(base) in b.nodes && Live(b, base)
  {
    hide AttemptKey;
    var two, id := RetriedBook(base, rejected), FillNode(AttemptKey(base, 1));
    var after := After(two, FillWrite(AttemptKey(base, 1), report));
    assert Accepts(map[], report);
    assert Union(map[], report) == report;
    assert after.nodes == two.nodes[id := Node(report, 1)];
    assert after.nodes[StopNode(base)] == Node(map[], 1) && after.nodes[FillNode(base)] == Node(rejected, 1);
    assert !Marked(map[]);
    assert SiblingFill(after, base) == Some(rejected);
    assert !Terminal(rejected);
  }
}
