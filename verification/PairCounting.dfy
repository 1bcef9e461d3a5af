/** Agreement figures over replayed verdicts (`orchestration/verdict_metrics.py`): counting the pairs
    of repeats that ruled alike, what was set aside, and what had nothing to be compared with. */
module PairCounting {
  import opened Options

  /** One replayed verdict; `failed` is a recorded failure reason, which makes it unusable. */
  datatype Verdict<D, A, R> = Verdict(decision: D, arm: A, ruling: Option<R>, failed: bool)

  datatype Agreement = Agreement(matched: nat, compared: nat, excluded: nat, noCounterpart: nat)

  predicate Selected<D, A(==), R>(v: Verdict<D, A, R>, arm: Option<A>) { arm.None? || v.arm == arm.value }

  predicate Usable<D, A, R>(v: Verdict<D, A, R>) { !v.failed && v.ruling.Some? }

  /** The decision and ruling of every usable verdict selected, in order. */
  function Rulings<D, A(==), R>(verdicts: seq<Verdict<D, A, R>>, arm: Option<A>): (r: seq<(D, R)>) {
    if verdicts == [] then []
    else
      var v := verdicts[|verdicts| - 1];
      Rulings(verdicts[..|verdicts| - 1], arm)
      + if Selected(v, arm) && Usable(v) then [(v.decision, v.ruling.value)] else []
  }

  function SelectedCount<D, A(==), R>(verdicts: seq<Verdict<D, A, R>>, arm: Option<A>): nat {
    if verdicts == [] then 0
    else SelectedCount(verdicts[..|verdicts| - 1], arm) + if Selected(verdicts[|verdicts| - 1], arm) then 1 else 0
  }

  /** The verdicts selected among the first `n`, and those of them that did not fail and have a ruling. */
  function SelectedAt<D, A(==), R>(verdicts: seq<Verdict<D, A, R>>, arm: Option<A>, n: nat): set<nat>
    requires n <= |verdicts|
  {
    set i: nat | i < n && (arm == None || arm == Some(verdicts[i].arm))
  }

  function UsableAt<D, A(==), R>(verdicts: seq<Verdict<D, A, R>>, arm: Option<A>, n: nat): set<nat>
    requires n <= |verdicts|
  {
    set i: nat | i < n && (arm == None || arm == Some(verdicts[i].arm)) && !verdicts[i].failed && verdicts[i].ruling != None
  }

  lemma SelectedNext<D, A, R>(verdicts: seq<Verdict<D, A, R>>, arm: Option<A>, n: nat)
    requires n < |verdicts|
    ensures SelectedAt(verdicts, arm, n + 1)
         == if Selected(verdicts[n], arm) then SelectedAt(verdicts, arm, n) + {n} else SelectedAt(verdicts, arm, n)
    ensures n !in SelectedAt(verdicts, arm, n)
  {
  }

  lemma UsableNext<D, A, R>(verdicts: seq<Verdict<D, A, R>>, arm: Option<A>, n: nat)
    requires n < |verdicts|
    ensures UsableAt(verdicts, arm, n + 1)
         == if Selected(verdicts[n], arm) && Usable(verdicts[n]) then UsableAt(verdicts, arm, n) + {n} else UsableAt(verdicts, arm, n)
    ensures n !in UsableAt(verdicts, arm, n)
  {
  }

  lemma {:induction false} SelectedCounts<D, A, R>(verdicts: seq<Verdict<D, A, R>>, arm: Option<A>, n: nat)
    requires n <= |verdicts|
    ensures SelectedCount(verdicts[..n], arm) == |SelectedAt(verdicts, arm, n)|
  {
    if n == 0 {
      assert SelectedAt(verdicts, arm, n) == {};
    } else {
      SelectedCounts(verdicts, arm, n - 1);
      SelectedNext(verdicts, arm, n - 1);
      assert verdicts[..n][..n - 1] == verdicts[..n - 1];
      hide SelectedAt, Selected;
    }
  }

  lemma {:induction false} RulingsCount<D, A, R>(verdicts: seq<Verdict<D, A, R>>, arm: Option<A>, n: nat)
    requires n <= |verdicts|
    ensures |Rulings(verdicts[..n], arm)| == |UsableAt(verdicts, arm, n)|
  {
    if n == 0 {
      assert UsableAt(verdicts, arm, n) == {};
    } else {
      RulingsCount(verdicts, arm, n - 1);
      UsableNext(verdicts, arm, n - 1);
      assert verdicts[..n][..n - 1] == verdicts[..n - 1];
      hide UsableAt, Selected;
    }
  }

  /** The verdicts counted are the usable ones of the selected arm, each with its decision and ruling, in
      order. */
  lemma {:induction false} RulingsExactly<D, A, R>(verdicts: seq<Verdict<D, A, R>>, arm: Option<A>, n: nat, i: nat)
    requires n <= |verdicts| && i in UsableAt(verdicts, arm, n)
    ensures var k := |UsableAt(verdicts, arm, i)|;
            && k < |Rulings(verdicts[..n], arm)|
            && Rulings(verdicts[..n], arm)[k] == (verdicts[i].decision, verdicts[i].ruling.value)
  {
    assert verdicts[..n][..n - 1] == verdicts[..n - 1];
    RulingsCount(verdicts, arm, n - 1);
    if i < n - 1 { RulingsExactly(verdicts, arm, n - 1, i); }
  }

  // ----- pairs ---------------------------------------------------------------------------------

  function Count<K(==)>(keys: seq<K>, key: K): nat {
    if keys == [] then 0 else Count(keys[..|keys| - 1], key) + if keys[|keys| - 1] == key then 1 else 0
  }

  /** The number of index pairs `i < j` with equal keys. */
  function Pairs<K(==)>(keys: seq<K>): nat {
    if keys == [] then 0 else Pairs(keys[..|keys| - 1]) + Count(keys[..|keys| - 1], keys[|keys| - 1])
  }

  function Decisions<D, R>(rulings: seq<(D, R)>): (ds: seq<D>)
    ensures |ds| == |rulings| && forall i :: 0 <= i < |ds| ==> ds[i] == rulings[i].0
  {
    seq(|rulings|, i requires 0 <= i < |rulings| => rulings[i].0)
  }

  /** The rulings of one decision, in order. */
  function Group<D(==), R>(rulings: seq<(D, R)>, d: D): seq<R> {
    if rulings == [] then []
    else
      Group(rulings[..|rulings| - 1], d)
      + if rulings[|rulings| - 1].0 == d then [rulings[|rulings| - 1].1] else []
  }

  /** `n` over 2. */
  function Choose2(n: nat): nat {
    if n == 0 then 0 else Choose2(n - 1) + (n - 1)
  }

  lemma {:induction false} Choose2Is(n: nat)
    ensures 2 * Choose2(n) == n * (n - 1)
  {
    if n > 0 { Choose2Is(n - 1); }
  }

  /** Verdicts whose decision was ruled on once: the keys that occur exactly once. */
  function Lone<K(==)>(keys: seq<K>, all: seq<K>): nat {
    if keys == [] then 0
    else Lone(keys[..|keys| - 1], all) + if Count(all, keys[|keys| - 1]) == 1 then 1 else 0
  }

  // ----- sums over groups ----------------------------------------------------------------------

  /** `order` lists different keys, among them all of `keys`. */
  ghost predicate Covers<K>(order: seq<K>, keys: seq<K>) {
    && (forall i, j :: 0 <= i < j < |order| ==> order[i] != order[j])
    && (forall i :: 0 <= i < |keys| ==> keys[i] in order)
  }

  function PairSum<K(==)>(keys: seq<K>, order: seq<K>): nat {
    if order == [] then 0
    else PairSum(keys, order[..|order| - 1]) + Choose2(Count(keys, order[|order| - 1]))
  }

  function LoneSum<K(==)>(keys: seq<K>, order: seq<K>): nat {
    if order == [] then 0
    else LoneSum(keys, order[..|order| - 1]) + if Count(keys, order[|order| - 1]) == 1 then 1 else 0
  }

  lemma {:induction false} PairSumGrows<K>(keys: seq<K>, key: K, order: seq<K>)
    requires forall i, j :: 0 <= i < j < |order| ==> order[i] != order[j]
    ensures PairSum(keys + [key], order) == PairSum(keys, order) + if key in order then Count(keys, key) else 0
  {
    if order != [] {
      var last := order[|order| - 1];
      PairSumGrows(keys, key, order[..|order| - 1]);
      assert (keys + [key])[..|keys|] == keys;
      assert order == order[..|order| - 1] + [last];
      assert last !in order[..|order| - 1];
    }
  }

  lemma {:induction false} NoneToPair<K>(order: seq<K>)
    ensures PairSum([], order) == 0
  {
    if order != [] { NoneToPair(order[..|order| - 1]); }
  }

  /** The pairs with equal keys number the sum, over the keys, of occurrences over 2. */
  lemma {:induction false} PairsByKey<K>(keys: seq<K>, order: seq<K>)
    requires Covers(order, keys)
    ensures Pairs(keys) == PairSum(keys, order)
  {
    if keys == [] {
      NoneToPair(order);
    } else {
      var most, key := keys[..|keys| - 1], keys[|keys| - 1];
      PairsByKey(most, order);
      PairSumGrows(most, key, order);
      assert keys == most + [key];
    }
  }

  lemma {:induction false} LoneOf<K>(keys: seq<K>, all: seq<K>, order: seq<K>)
    requires Covers(order, keys)
    requires forall i :: 0 <= i < |keys| ==> Count(keys, keys[i]) <= 1 || Count(all, keys[i]) != 1
    ensures Lone(keys, all) == LoneIn(keys, all, order)
  {
    if keys == [] {
      NoLone(all, order);
    } else {
      var most, key := keys[..|keys| - 1], keys[|keys| - 1];
      assert keys == most + [key];
      forall i | 0 <= i < |most| ensures Count(most, most[i]) <= 1 || Count(all, most[i]) != 1 {
        assert most[i] == keys[i];
      }
      LoneOf(most, all, order);
      assert Count(keys, keys[|keys| - 1]) == Count(most, key) + 1;
      LoneGrows(most, key, all, order);
    }
  }

  /** How many of `order` occur in `keys` and exactly once in `all`. */
  function LoneIn<K(==)>(keys: seq<K>, all: seq<K>, order: seq<K>): nat {
    if order == [] then 0
    else
      LoneIn(keys, all, order[..|order| - 1])
      + if Count(all, order[|order| - 1]) == 1 && Count(keys, order[|order| - 1]) >= 1 then 1 else 0
  }

  lemma {:induction false} NoLone<K>(all: seq<K>, order: seq<K>)
    ensures LoneIn([], all, order) == 0
  {
    if order != [] { NoLone(all, order[..|order| - 1]); }
  }

  lemma {:induction false} LoneGrows<K>(most: seq<K>, key: K, all: seq<K>, order: seq<K>)
    requires forall i, j :: 0 <= i < j < |order| ==> order[i] != order[j]
    requires Count(most, key) == 0 || Count(all, key) != 1
    ensures LoneIn(most + [key], all, order)
         == LoneIn(most, all, order) + if key in order && Count(all, key) == 1 then 1 else 0
  {
    if order != [] {
      var last := order[|order| - 1];
      LoneGrows(most, key, all, order[..|order| - 1]);
      assert (most + [key])[..|most|] == most;
      assert order == order[..|order| - 1] + [last];
      assert last !in order[..|order| - 1];
    }
  }

  lemma {:induction false} LoneIsSum<K>(keys: seq<K>, order: seq<K>)
    ensures LoneIn(keys, keys, order) == LoneSum(keys, order)
  {
    if order != [] { LoneIsSum(keys, order[..|order| - 1]); }
  }

  /** Matching pairs counted decision by decision. */
  function MatchSum<D(==), R(==)>(rulings: seq<(D, R)>, order: seq<D>): nat {
    if order == [] then 0
    else MatchSum(rulings, order[..|order| - 1]) + Pairs(Group(rulings, order[|order| - 1]))
  }

  lemma {:induction false} GroupSize<D, R>(rulings: seq<(D, R)>, d: D)
    ensures |Group(rulings, d)| == Count(Decisions(rulings), d)
  {
    if rulings != [] {
      GroupSize(rulings[..|rulings| - 1], d);
      assert Decisions(rulings)[..|rulings| - 1] == Decisions(rulings[..|rulings| - 1]);
    }
  }

  lemma OneMore<K>(keys: seq<K>, key: K, x: K)
    ensures Count(keys + [key], x) == Count(keys, x) + if key == x then 1 else 0
    ensures Pairs(keys + [key]) == Pairs(keys) + Count(keys, key)
  {
    assert (keys + [key])[..|keys + [key]| - 1] == keys;
  }

  lemma {:induction false} GroupCount<D, R>(rulings: seq<(D, R)>, d: D, r: R)
    ensures Count(Group(rulings, d), r) == Count(rulings, (d, r))
  {
    if rulings != [] {
      var most, last := rulings[..|rulings| - 1], rulings[|rulings| - 1];
      GroupCount(most, d, r);
      assert rulings == most + [last];
      OneMore(most, last, (d, r));
      OneMore(Group(most, d), last.1, r);
      assert Group(rulings, d) == if last.0 == d then Group(most, d) + [last.1] else Group(most, d);
      hide Group, Count, Pairs;
      assert last == (d, r) <==> last.0 == d && last.1 == r;
    }
  }

  lemma {:induction false} MatchSumGrows<D, R>(rulings: seq<(D, R)>, x: (D, R), order: seq<D>)
    requires forall i, j :: 0 <= i < j < |order| ==> order[i] != order[j]
    ensures MatchSum(rulings + [x], order) == MatchSum(rulings, order) + if x.0 in order then Count(rulings, x) else 0
  {
    if order != [] {
      var last := order[|order| - 1];
      MatchSumGrows(rulings, x, order[..|order| - 1]);
      assert order == order[..|order| - 1] + [last] && last !in order[..|order| - 1];
      GroupGrows(rulings, x, last);
    }
  }

  lemma GroupGrows<D, R>(rulings: seq<(D, R)>, x: (D, R), d: D)
    ensures Pairs(Group(rulings + [x], d)) == Pairs(Group(rulings, d)) + if x.0 == d then Count(rulings, x) else 0
  {
    assert (rulings + [x])[..|rulings + [x]| - 1] == rulings;
    GroupCount(rulings, x.0, x.1);
    assert (x.0, x.1) == x;
    OneMore(Group(rulings, d), x.1, x.1);
    assert Group(rulings, d) + [] == Group(rulings, d);
  }

  lemma {:induction false} NoMatches<D, R>(order: seq<D>)
    ensures MatchSum<D, R>([], order) == 0
  {
    if order != [] { NoMatches<D, R>(order[..|order| - 1]); }
  }

  /** Comparing only within a decision finds every pair that agrees on decision and ruling. */
  lemma {:induction false} MatchesByDecision<D, R>(rulings: seq<(D, R)>, order: seq<D>)
    requires Covers(order, Decisions(rulings))
    ensures Pairs(rulings) == MatchSum(rulings, order)
  {
    if rulings == [] {
      NoMatches<D, R>(order);
    } else {
      var most, x := rulings[..|rulings| - 1], rulings[|rulings| - 1];
      assert rulings == most + [x];
      assert Decisions(rulings)[|most|] == x.0 && x.0 in order;
      forall i | 0 <= i < |most| ensures Decisions(most)[i] in order { assert Decisions(rulings)[i] == Decisions(most)[i]; }
      MatchesByDecision(most, order);
      MatchSumGrows(most, x, order);
    }
  }

  // ----- the metric ----------------------------------------------------------------------------

  /** The pairs of one decision's rulings, and those that agree. */
  method ComparePairs<R(==)>(rulings: seq<R>) returns (matched: nat, compared: nat)
    ensures matched == Pairs(rulings) && compared == Choose2(|rulings|)
    ensures 2 * compared == |rulings| * (|rulings| - 1)
  {
    Choose2Is(|rulings|);
    matched, compared := 0, 0;
    for j := 0 to |rulings|
      invariant matched == Pairs(rulings[..j]) && compared == Choose2(j)
    {
      assert rulings[..j + 1][..j] == rulings[..j];
      for i := 0 to j
        invariant matched == Pairs(rulings[..j]) + Count(rulings[..i], rulings[j]) && compared == Choose2(j) + i
      {
        assert rulings[..i + 1][..i] == rulings[..i];
        compared := compared + 1;
        if rulings[i] == rulings[j] { matched := matched + 1; }
      }
    }
    assert rulings[..|rulings|] == rulings;
  }

  /** `_split`: the usable rulings, and how many selected verdicts were not usable. */
  method Split<D, A(==), R>(verdicts: seq<Verdict<D, A, R>>, arm: Option<A>) returns (usable: seq<(D, R)>, excluded: nat)
    ensures usable == Rulings(verdicts, arm) && |usable| + excluded == SelectedCount(verdicts, arm)
  {
    usable, excluded := [], 0;
    for i := 0 to |verdicts|
      invariant usable == Rulings(verdicts[..i], arm) && |usable| + excluded == SelectedCount(verdicts[..i], arm)
    {
      assert verdicts[..i + 1][..i] == verdicts[..i];
      if Selected(verdicts[i], arm) {
        if Usable(verdicts[i]) {
          usable := usable + [(verdicts[i].decision, verdicts[i].ruling.value)];
        } else {
          excluded := excluded + 1;
        }
      }
    }
    assert verdicts[..|verdicts|] == verdicts;
  }

  lemma NothingToCover<D, R>(rulings: seq<(D, R)>)
    ensures Covers([], Decisions(rulings[..0]))
  {
  }

  lemma CoversAll<K>(order: seq<K>, keys: seq<K>)
    requires Covers(order, keys)
    ensures forall i :: 0 <= i < |keys| ==> keys[i] in order
  {
  }

  lemma CoversNext<D, R>(rulings: seq<(D, R)>, i: nat, before: seq<D>, order: seq<D>)
    requires i < |rulings| && Covers(before, Decisions(rulings[..i]))
    requires order == if rulings[i].0 in before then before else before + [rulings[i].0]
    ensures Covers(order, Decisions(rulings[..i + 1]))
  {
    var ds := Decisions(rulings[..i + 1]);
    assert rulings[i].0 in order;
    forall j | 0 <= j < |ds| ensures ds[j] in order {
      if j < i { assert Decisions(rulings[..i])[j] in before; }
    }
  }

  /** Grouping by decision; `order` is the dict's insertion order. */
  method GroupByDecision<D(==), R>(usable: seq<(D, R)>) returns (groups: map<D, seq<R>>, order: seq<D>)
    ensures Covers(order, Decisions(usable))
    ensures forall i :: 0 <= i < |order| ==> order[i] in groups && groups[order[i]] == Group(usable, order[i])
  {
    hide Covers, Decisions;
    groups, order := map[], [];
    assert Covers(order, Decisions(usable[..0])) by { NothingToCover(usable); }
    for i := 0 to |usable|
      invariant Covers(order, Decisions(usable[..i]))
      invariant forall d :: d in groups <==> d in order
      invariant forall d :: d in groups ==> groups[d] == Group(usable[..i], d)
    {
      assert usable[..i + 1][..i] == usable[..i];
      var d := usable[i].0;
      AbsentIsEmpty(usable[..i], d, order) by { CoversAll(order, Decisions(usable[..i])); }
      ghost var before := order;
      if d !in groups {
        groups, order := groups[d := []], order + [d];
      }
      groups := groups[d := groups[d] + [usable[i].1]];
      CoversNext(usable, i, before, order);
    }
    assert usable[..|usable|] == usable;
  }

  lemma {:induction false} AbsentIsEmpty<D, R>(rulings: seq<(D, R)>, d: D, order: seq<D>)
    requires forall i :: 0 <= i < |rulings| ==> Decisions(rulings)[i] in order
    ensures d !in order ==> Group(rulings, d) == []
  {
    if rulings != [] {
      var most := rulings[..|rulings| - 1];
      assert forall i :: 0 <= i < |most| ==> Decisions(most)[i] == Decisions(rulings)[i];
      AbsentIsEmpty(most, d, order);
      assert Decisions(rulings)[|rulings| - 1] in order;
    }
  }

  /** `self_agreement`. */
  method SelfAgreement<D(==), A(==), R(==)>(verdicts: seq<Verdict<D, A, R>>, arm: Option<A>) returns (a: Agreement)
    ensures var rulings := Rulings(verdicts, arm);
            && a.compared == Pairs(Decisions(rulings)) && a.matched == Pairs(rulings)
            && a.excluded + |rulings| == SelectedCount(verdicts, arm)
            && a.noCounterpart == Lone(Decisions(rulings), Decisions(rulings))
  {
    hide Pairs, Group, Count, Lone, Rulings, Decisions, Choose2, Covers, SelectedCount;
    var usable, excluded := Split(verdicts, arm);
    var groups, order := GroupByDecision(usable);
    var matched, compared, lone := 0, 0, 0;
    for i := 0 to |order|
      invariant matched == MatchSum(usable, order[..i]) && compared == PairSum(Decisions(usable), order[..i])
      invariant lone == LoneSum(Decisions(usable), order[..i])
    {
      assert order[..i + 1][..i] == order[..i];
      GroupSize(usable, order[i]);
      var m, c := ComparePairs(groups[order[i]]);
      matched, compared := matched + m, compared + c;
      if |groups[order[i]]| < 2 { lone := lone + |groups[order[i]]|; }
    }
    assert order[..|order|] == order;
    hide MatchSum, PairSum, LoneSum;
    FiguresByGroup(usable, order);
    return Agreement(matched, compared, excluded, lone);
  }

  /** The sums over the groups are the pairs over all usable rulings. */
  lemma FiguresByGroup<D, R>(rulings: seq<(D, R)>, order: seq<D>)
    requires Covers(order, Decisions(rulings))
    ensures MatchSum(rulings, order) == Pairs(rulings)
    ensures PairSum(Decisions(rulings), order) == Pairs(Decisions(rulings))
    ensures LoneSum(Decisions(rulings), order) == Lone(Decisions(rulings), Decisions(rulings))
  {
    MatchesByDecision(rulings, order);
    PairsByKey(Decisions(rulings), order);
    LoneOf(Decisions(rulings), Decisions(rulings), order);
    LoneIsSum(Decisions(rulings), order);
  }

  /** No more pairs agree than are compared. */
  lemma {:induction false} MatchedAtMostCompared<D, R>(rulings: seq<(D, R)>)
    ensures Pairs(rulings) <= Pairs(Decisions(rulings))
  {
    if rulings != [] {
      var most := rulings[..|rulings| - 1];
      MatchedAtMostCompared(most);
      assert Decisions(rulings)[..|rulings| - 1] == Decisions(most);
      FewerWithRuling(most, rulings[|rulings| - 1]);
    }
  }

  lemma {:induction false} FewerWithRuling<D, R>(rulings: seq<(D, R)>, x: (D, R))
    ensures Count(rulings, x) <= Count(Decisions(rulings), x.0)
  {
    if rulings != [] {
      FewerWithRuling(rulings[..|rulings| - 1], x);
      assert Decisions(rulings)[..|rulings| - 1] == Decisions(rulings[..|rulings| - 1]);
    }
  }

  // ----- order does not matter -----------------------------------------------------------------

  lemma {:induction false} CountIsMultiplicity<K>(keys: seq<K>, key: K)
    ensures Count(keys, key) == multiset(keys)[key]
  {
    if keys != [] {
      CountIsMultiplicity(keys[..|keys| - 1], key);
      assert keys == keys[..|keys| - 1] + [keys[|keys| - 1]];
    }
  }

  function Keys<K(==)>(keys: seq<K>): (order: seq<K>)
  {
    if keys == [] then []
    else
      var most := Keys(keys[..|keys| - 1]);
      if keys[|keys| - 1] in most then most else most + [keys[|keys| - 1]]
  }

  lemma {:induction false} KeysCover<K>(keys: seq<K>)
    ensures Covers(Keys(keys), keys) && forall k :: k in Keys(keys) ==> k in keys
  {
    if keys != [] {
      KeysCover(keys[..|keys| - 1]);
      assert keys == keys[..|keys| - 1] + [keys[|keys| - 1]];
    }
  }

  lemma {:induction false} SumsAgree<K>(a: seq<K>, b: seq<K>, order: seq<K>)
    requires multiset(a) == multiset(b)
    ensures PairSum(a, order) == PairSum(b, order) && LoneSum(a, order) == LoneSum(b, order)
  {
    if order != [] {
      SumsAgree(a, b, order[..|order| - 1]);
      CountIsMultiplicity(a, order[|order| - 1]);
      CountIsMultiplicity(b, order[|order| - 1]);
    }
  }

  /** Pairs and lone keys depend only on which keys there are, not on their order. */
  lemma PairsPermute<K>(a: seq<K>, b: seq<K>)
    requires multiset(a) == multiset(b)
    ensures Pairs(a) == Pairs(b) && Lone(a, a) == Lone(b, b) && |a| == |b|
  {
    var order := Keys(a);
    KeysCover(a);
    forall i | 0 <= i < |b| ensures b[i] in order {
      assert b[i] in multiset(b);
      assert b[i] in a;
    }
    PairsByKey(a, order);
    PairsByKey(b, order);
    LoneOf(a, a, order);
    LoneOf(b, b, order);
    LoneIsSum(a, order);
    LoneIsSum(b, order);
    SumsAgree(a, b, order);
    assert |multiset(a)| == |a| && |multiset(b)| == |b|;
  }

  /** One verdict's contribution to the usable rulings. */
  function RulingOf<D, A(==), R>(v: Verdict<D, A, R>, arm: Option<A>): seq<(D, R)> {
    if Selected(v, arm) && Usable(v) then [(v.decision, v.ruling.value)] else []
  }

  lemma {:induction false} RulingsJoin<D, A, R>(a: seq<Verdict<D, A, R>>, b: seq<Verdict<D, A, R>>, arm: Option<A>)
    ensures Rulings(a + b, arm) == Rulings(a, arm) + Rulings(b, arm)
    ensures SelectedCount(a + b, arm) == SelectedCount(a, arm) + SelectedCount(b, arm)
  {
    if b == [] {
      assert a + b == a;
    } else {
      var most, v := b[..|b| - 1], b[|b| - 1];
      assert (a + b)[..|a + b| - 1] == a + most && (a + b)[|a + b| - 1] == v;
      RulingsJoin(a, most, arm);
      assert Rulings(a, arm) + (Rulings(most, arm) + RulingOf(v, arm)) == (Rulings(a, arm) + Rulings(most, arm)) + RulingOf(v, arm);
    }
  }

  /** Taking one verdict out, wherever it stands, takes out its contribution. */
  lemma OneOut<D, A, R>(a: seq<Verdict<D, A, R>>, v: Verdict<D, A, R>, b: seq<Verdict<D, A, R>>, arm: Option<A>)
    ensures multiset(Rulings(a + [v] + b, arm)) == multiset(Rulings(a + b, arm)) + multiset(RulingOf(v, arm))
    ensures SelectedCount(a + [v] + b, arm) == SelectedCount(a + b, arm) + if Selected(v, arm) then 1 else 0
  {
    RulingsJoin(a + [v], b, arm);
    RulingsJoin(a, [v], arm);
    RulingsJoin(a, b, arm);
    assert [v][..0] == [];
    assert Rulings([v], arm) == RulingOf(v, arm);
  }

  lemma LastOut<D, A, R>(a: seq<Verdict<D, A, R>>, arm: Option<A>)
    requires a != []
    ensures var most, v := a[..|a| - 1], a[|a| - 1];
            && multiset(Rulings(a, arm)) == multiset(Rulings(most, arm)) + multiset(RulingOf(v, arm))
            && SelectedCount(a, arm) == SelectedCount(most, arm) + if Selected(v, arm) then 1 else 0
  {
    var most, v := a[..|a| - 1], a[|a| - 1];
    assert Rulings(a, arm) == Rulings(most, arm) + RulingOf(v, arm);
  }

  /** The last of `a` stands somewhere in every reordering `b`, and the rest reorder each other. */
  lemma TakeOut<X>(a: seq<X>, b: seq<X>) returns (left: seq<X>, right: seq<X>)
    requires a != [] && multiset(a) == multiset(b)
    ensures b == left + [a[|a| - 1]] + right
    ensures multiset(a[..|a| - 1]) == multiset(left + right)
  {
    var most, v := a[..|a| - 1], a[|a| - 1];
    assert a == most + [v] + [];
    assert v in multiset(a);
    assert v in multiset(b);
    var i :| 0 <= i < |b| && b[i] == v;
    left, right := b[..i], b[i + 1..];
    assert b == left + [v] + right;
    LessOne(most, v, [], a);
    LessOne(left, v, right, b);
    assert most + [] == most;
  }

  lemma LessOne<X>(left: seq<X>, v: X, right: seq<X>, all: seq<X>)
    requires all == left + [v] + right
    ensures multiset(left + right) == multiset(all) - multiset{v}
  {
    assert multiset(all) == multiset(left) + multiset{v} + multiset(right);
    assert multiset(left + right) == multiset(left) + multiset(right);
  }

  lemma EmptyOnly<X>(b: seq<X>)
    requires multiset(b) == multiset{}
    ensures b == []
  {
    assert |multiset(b)| == |b|;
  }

  lemma {:induction false} RulingsPermute<D, A, R>(a: seq<Verdict<D, A, R>>, b: seq<Verdict<D, A, R>>, arm: Option<A>)
    requires multiset(a) == multiset(b)
    ensures multiset(Rulings(a, arm)) == multiset(Rulings(b, arm)) && SelectedCount(a, arm) == SelectedCount(b, arm)
  {
    if a == [] {
      EmptyOnly(b);
    } else {
      hide Rulings, SelectedCount, RulingOf, Selected, Usable;
      var left, right := TakeOut(a, b);
      var most, v := a[..|a| - 1], a[|a| - 1];
      RulingsPermute(most, left + right, arm);
      OneOut(left, v, right, arm);
      LastOut(a, arm);
    }
  }

  lemma OneDecisionOut<D, R>(a: seq<(D, R)>, v: (D, R), b: seq<(D, R)>)
    ensures multiset(Decisions(a + [v] + b)) == multiset(Decisions(a + b)) + multiset{v.0}
  {
    assert Decisions(a + [v] + b) == Decisions(a) + [v.0] + Decisions(b);
    assert Decisions(a + b) == Decisions(a) + Decisions(b);
    hide Decisions;
  }

  lemma {:induction false} DecisionsPermute<D, R>(a: seq<(D, R)>, b: seq<(D, R)>)
    requires multiset(a) == multiset(b)
    ensures multiset(Decisions(a)) == multiset(Decisions(b))
  {
    if a == [] {
      EmptyOnly(b);
    } else {
      hide Decisions;
      var left, right := TakeOut(a, b);
      var most, v := a[..|a| - 1], a[|a| - 1];
      assert a == most + [v] + [] && most + [] == most;
      DecisionsPermute(most, left + right);
      OneDecisionOut(most, v, []);
      OneDecisionOut(left, v, right);
    }
  }

  /** Reordering the verdicts changes no figure. */
  lemma FiguresPermute<D, A, R>(a: seq<Verdict<D, A, R>>, b: seq<Verdict<D, A, R>>, arm: Option<A>)
    requires multiset(a) == multiset(b)
    ensures var x, y := Rulings(a, arm), Rulings(b, arm);
            && Pairs(x) == Pairs(y) && Pairs(Decisions(x)) == Pairs(Decisions(y))
            && Lone(Decisions(x), Decisions(x)) == Lone(Decisions(y), Decisions(y))
            && SelectedCount(a, arm) - |x| == SelectedCount(b, arm) - |y|
  {
    RulingsPermute(a, b, arm);
    DecisionsPermute(Rulings(a, arm), Rulings(b, arm));
    PairsPermute(Rulings(a, arm), Rulings(b, arm));
    PairsPermute(Decisions(Rulings(a, arm)), Decisions(Rulings(b, arm)));
  }

  // ----- against a second source ---------------------------------------------------------------

  /** The positions, among the first `n`, whose decision the second source ruled on. */
  function Known<D, R>(rulings: seq<(D, R)>, truth: map<D, R>, n: nat): set<int>
    requires n <= |rulings|
  {
    set i | 0 <= i < n && rulings[i].0 in truth
  }

  /** Those where it ruled the same. */
  function Alike<D, R(==)>(rulings: seq<(D, R)>, truth: map<D, R>, n: nat): set<int>
    requires n <= |rulings|
  {
    set i | 0 <= i < n && rulings[i].0 in truth && truth[rulings[i].0] == rulings[i].1
  }

  lemma KnownNext<D, R>(rulings: seq<(D, R)>, truth: map<D, R>, n: nat)
    requires n < |rulings|
    ensures |Known(rulings, truth, n + 1)| == |Known(rulings, truth, n)| + if rulings[n].0 in truth then 1 else 0
    ensures |Known(rulings, truth, n)| <= n ==> |Known(rulings, truth, n + 1)| <= n + 1
  {
    var s := Known(rulings, truth, n);
    assert Known(rulings, truth, n + 1) == if rulings[n].0 in truth then s + {n} else s;
  }

  lemma AlikeNext<D, R>(rulings: seq<(D, R)>, truth: map<D, R>, n: nat)
    requires n < |rulings|
    ensures |Alike(rulings, truth, n + 1)|
         == |Alike(rulings, truth, n)| + if rulings[n].0 in truth && truth[rulings[n].0] == rulings[n].1 then 1 else 0
  {
    var s := Alike(rulings, truth, n);
    assert Alike(rulings, truth, n + 1)
        == if rulings[n].0 in truth && truth[rulings[n].0] == rulings[n].1 then s + {n} else s;
  }

  /** `agreement_with`: every selected verdict is excluded, without counterpart, or compared. */
  method AgreementWith<D(==), A(==), R(==)>(verdicts: seq<Verdict<D, A, R>>, truth: map<D, R>, arm: Option<A>)
    returns (a: Agreement)
    ensures var rulings := Rulings(verdicts, arm);
            && a.matched == |Alike(rulings, truth, |rulings|)| && a.compared == |Known(rulings, truth, |rulings|)|
            && a.excluded + a.noCounterpart + a.compared == SelectedCount(verdicts, arm)
            && a.matched <= a.compared
  {
    var usable, excluded := Split(verdicts, arm);
    var matched, compared := 0, 0;
    assert Known(usable, truth, 0) == {} && Alike(usable, truth, 0) == {};
    hide Known, Alike;
    for i := 0 to |usable|
      invariant matched == |Alike(usable, truth, i)| && compared == |Known(usable, truth, i)| && matched <= compared <= i
    {
      KnownNext(usable, truth, i);
      AlikeNext(usable, truth, i);
      if usable[i].0 in truth {
        compared := compared + 1;
        if truth[usable[i].0] == usable[i].1 { matched := matched + 1; }
      }
    }
    return Agreement(matched, compared, excluded, |usable| - compared);
  }
}
