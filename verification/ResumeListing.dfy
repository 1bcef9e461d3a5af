/** The chain walk on a backend that lists children in an order of its own: the in-memory walk lists
    them by their edges, the query by key (`kernel/graph_postgres_queries.py`). What a resume promises
    of chains does not depend on it. */
module ResumeListing {
  import opened Options
  import opened Props
  import opened CreatedAt
  import opened Traversal
  import opened GraphStore
  import opened Resume
  import opened ResumeChain

  /** What a backend makes of the children the walk finds: the same ones, in its own order. */
  ghost predicate Lists(list: seq<Id> -> seq<Id>) {
    forall s, x :: x in list(s) <==> x in s
  }

  function FirstBy(list: seq<Id> -> seq<Id>, edges: seq<Edge<Id, Kind>>, x: Id, kind: Kind): Option<Id> {
    var found := list(ChildrenOf(edges, x, kind));
    if found == [] then None else Some(found[0])
  }

  function FoundBy(list: seq<Id> -> seq<Id>, edges: seq<Edge<Id, Kind>>, x: Id, i: nat): map<ChainKey, Id>
    requires i < ARTIFACTS
  {
    if Artifact(i) == PMRun && FirstBy(list, edges, x, DeliberatedBy).Some?
    then map[At(PMRun) := x, Deliberation := FirstBy(list, edges, x, DeliberatedBy).value]
    else map[At(Artifact(i)) := x]
  }

  function BelowBy(list: seq<Id> -> seq<Id>, edges: seq<Edge<Id, Kind>>, current: Id, i: nat): map<ChainKey, Id>
    requires 1 <= i <= ARTIFACTS
    decreases ARTIFACTS - i
  {
    if i == ARTIFACTS then map[]
    else match FirstBy(list, edges, current, By(Artifact(i)))
      case None => map[]
      case Some(next) => FoundBy(list, edges, next, i) + BelowBy(list, edges, next, i + 1)
  }

  function HeadBy(list: seq<Id> -> seq<Id>, nodes: map<Id, Node>, edges: seq<Edge<Id, Kind>>, run: string): map<ChainKey, Id> {
    match FirstMarker(nodes, list(ChildrenOf(edges, Request(run), By(PositionSync))))
    case None => map[Run := Request(run)]
    case Some(marker) => map[Run := Request(run), At(PositionSync) := marker]
  }

  /** What `walk_chain` finds on that backend. */
  function ChainBy(list: seq<Id> -> seq<Id>, nodes: map<Id, Node>, edges: seq<Edge<Id, Kind>>, run: string): map<ChainKey, Id> {
    if Request(run) !in nodes then map[]
    else HeadBy(list, nodes, edges, run) + BelowBy(list, edges, Request(run), 1)
  }

  function InEdgeOrder(s: seq<Id>): seq<Id> { s }

  /** In the order of the edges it is the chain walk of the in-memory backend. */
  lemma InEdgeOrderIsTheChain(nodes: map<Id, Node>, edges: seq<Edge<Id, Kind>>, run: string)
    ensures Lists(InEdgeOrder) && ChainBy(InEdgeOrder, nodes, edges, run) == Chain(nodes, edges, run)
  {
    BelowInEdgeOrder(edges, Request(run), 1);
    hide ChildrenOf, FirstMarker, Below, BelowBy;
  }

  lemma {:induction false} BelowInEdgeOrder(edges: seq<Edge<Id, Kind>>, current: Id, i: nat)
    requires 1 <= i <= ARTIFACTS
    ensures BelowBy(InEdgeOrder, edges, current, i) == Below(edges, current, i)
    decreases ARTIFACTS - i
  {
    hide FirstBy, FirstChild, FoundBy, Found, Artifact;
    if i < ARTIFACTS {
      var next := FirstChild(edges, current, By(Artifact(i)));
      FirstInEdgeOrder(edges, current, By(Artifact(i)));
      if next.Some? {
        FoundInEdgeOrder(edges, next.value, i);
        BelowInEdgeOrder(edges, next.value, i + 1);
      }
    }
  }

  lemma FirstInEdgeOrder(edges: seq<Edge<Id, Kind>>, x: Id, kind: Kind)
    ensures FirstBy(InEdgeOrder, edges, x, kind) == FirstChild(edges, x, kind)
  {
    hide ChildrenOf;
  }

  lemma FoundInEdgeOrder(edges: seq<Edge<Id, Kind>>, x: Id, i: nat)
    requires i < ARTIFACTS
    ensures FoundBy(InEdgeOrder, edges, x, i) == Found(edges, x, i)
  {
    hide FirstBy, FirstChild, Artifact;
    FirstInEdgeOrder(edges, x, DeliberatedBy);
  }

  // ----- existing runs -------------------------------------------------------------------------

  lemma ChildrenUnchanged(before: map<Id, Node>, edges: seq<Edge<Id, Kind>>, after: map<Id, Node>,
                          edgesAfter: seq<Edge<Id, Kind>>, child: string, x: Id, kind: Kind)
    requires Closed(edges, before.Keys) && Extends(before, edges, after, edgesAfter, child) && x in before && kind != LinkedFrom
    ensures ChildrenOf(edgesAfter, x, kind) == ChildrenOf(edges, x, kind)
    ensures forall y :: y in ChildrenOf(edges, x, kind) ==> y in before
  {
    var v := View(Kinds({kind}), true);
    DescendantsUnchanged(before, edges, after, edgesAfter, child, v, x, 1);
    WalkOfOne(edges, v, x);
    LevelIs(edges, v, {x}, {x});
    forall y | y in ChildrenOf(edges, x, kind) ensures y in before { assert Step(edges, v, x, y); }
  }

  lemma FirstByUnchanged(list: seq<Id> -> seq<Id>, before: map<Id, Node>, edges: seq<Edge<Id, Kind>>, after: map<Id, Node>,
                         edgesAfter: seq<Edge<Id, Kind>>, child: string, x: Id, kind: Kind)
    requires Lists(list) && Closed(edges, before.Keys) && Extends(before, edges, after, edgesAfter, child)
    requires x in before && kind != LinkedFrom
    ensures FirstBy(list, edgesAfter, x, kind) == FirstBy(list, edges, x, kind)
    ensures FirstBy(list, edges, x, kind).Some? ==> FirstBy(list, edges, x, kind).value in before
  {
    ChildrenUnchanged(before, edges, after, edgesAfter, child, x, kind);
    var found := list(ChildrenOf(edges, x, kind));
    hide ChildrenOf, Extends, Closed;
    if found != [] { assert found[0] in found; }
  }

  lemma FoundByUnchanged(list: seq<Id> -> seq<Id>, before: map<Id, Node>, edges: seq<Edge<Id, Kind>>, after: map<Id, Node>,
                         edgesAfter: seq<Edge<Id, Kind>>, child: string, x: Id, i: nat)
    requires Lists(list) && Closed(edges, before.Keys) && Extends(before, edges, after, edgesAfter, child)
    requires x in before && i < ARTIFACTS
    ensures FoundBy(list, edgesAfter, x, i) == FoundBy(list, edges, x, i)
  {
    hide FirstBy, Extends, Artifact, Closed, Lists;
    FirstByUnchanged(list, before, edges, after, edgesAfter, child, x, DeliberatedBy);
  }

  lemma {:induction false} BelowByUnchanged(list: seq<Id> -> seq<Id>, before: map<Id, Node>, edges: seq<Edge<Id, Kind>>,
                                            after: map<Id, Node>, edgesAfter: seq<Edge<Id, Kind>>, child: string,
                                            current: Id, i: nat)
    requires Lists(list) && Closed(edges, before.Keys) && Extends(before, edges, after, edgesAfter, child)
    requires current in before && 1 <= i <= ARTIFACTS
    ensures BelowBy(list, edgesAfter, current, i) == BelowBy(list, edges, current, i)
    decreases ARTIFACTS - i
  {
    hide FirstBy, FoundBy, Extends, Artifact, Closed, Lists;
    if i < ARTIFACTS {
      FirstByUnchanged(list, before, edges, after, edgesAfter, child, current, By(Artifact(i)));
      var next := FirstBy(list, edges, current, By(Artifact(i)));
      if next.Some? {
        FoundByUnchanged(list, before, edges, after, edgesAfter, child, next.value, i);
        BelowByUnchanged(list, before, edges, after, edgesAfter, child, next.value, i + 1);
      }
    }
  }

  /** Whatever a resume does, the chain of every run placed before it reads as it did, in whichever order
      a backend lists children. */
  lemma ExistingRunsUnchangedBy(list: seq<Id> -> seq<Id>, before: map<Id, Node>, edges: seq<Edge<Id, Kind>>,
                                after: map<Id, Node>, edgesAfter: seq<Edge<Id, Kind>>, child: string, run: string)
    requires Lists(list) && Closed(edges, before.Keys) && Extends(before, edges, after, edgesAfter, child)
    requires Request(run) in before
    ensures ChainBy(list, after, edgesAfter, run) == ChainBy(list, before, edges, run)
  {
    ChildrenUnchanged(before, edges, after, edgesAfter, child, Request(run), By(PositionSync));
    BelowByUnchanged(list, before, edges, after, edgesAfter, child, Request(run), 1);
    var found := list(ChildrenOf(edges, Request(run), By(PositionSync)));
    assert forall x :: x in found ==> x in before;
    hide BelowBy, ChildrenOf, FirstMarker, Closed;
    MarkerUnchanged(before, after, found);
  }

  // ----- the child -----------------------------------------------------------------------------

  /** With at most one child there is no choice. */
  lemma OneIsFirst(list: seq<Id> -> seq<Id>, edges: seq<Edge<Id, Kind>>, x: Id, kind: Kind)
    requires Lists(list) && |ChildrenOf(edges, x, kind)| <= 1
    ensures FirstBy(list, edges, x, kind) == FirstChild(edges, x, kind)
  {
    var s := ChildrenOf(edges, x, kind);
    hide ChildrenOf;
    if s == [] {
      NoneListed(list, s);
    } else {
      assert s == [s[0]] && s[0] in list(s);
      assert list(s)[0] in list(s);
    }
  }

  lemma NoneListed(list: seq<Id> -> seq<Id>, s: seq<Id>)
    requires Lists(list) && s == []
    ensures list(s) == []
  {
    if list(s) != [] { ListedIsThere(list, s); }
  }

  lemma ListedIsThere(list: seq<Id> -> seq<Id>, s: seq<Id>)
    requires Lists(list) && list(s) != []
    ensures s != []
  {
    assert list(s)[0] in list(s);
  }

  lemma FirstMarkerOfOne(list: seq<Id> -> seq<Id>, nodes: map<Id, Node>, s: seq<Id>)
    requires Lists(list) && |s| <= 1
    ensures FirstMarker(nodes, list(s)) == FirstMarker(nodes, s)
  {
    if s == [] {
      NoneListed(list, s);
    } else {
      hide IsSyncMarker;
      assert s[0] in s && s[0] in list(s);
      forall x | x in list(s) ensures x == s[0] { assert x in s; }
      SameMarkers(nodes, list(s), s[0]);
      SameMarkers(nodes, s, s[0]);
    }
  }

  lemma {:induction false} SameMarkers(nodes: map<Id, Node>, s: seq<Id>, y: Id)
    requires forall x :: x in s ==> x == y
    ensures FirstMarker(nodes, s) == if s != [] && IsSyncMarker(nodes, y) then Some(y) else None
  {
    hide IsSyncMarker;
    if s != [] {
      assert s[0] in s && forall x :: x in s[1..] ==> x in s;
      SameMarkers(nodes, s[1..], y);
    }
  }

  lemma {:induction false} BelowByIsSpine(list: seq<Id> -> seq<Id>, nodes: map<Id, Node>, edges: seq<Edge<Id, Kind>>,
                                          child: string, chain: map<ChainKey, Id>, k: nat, context: Option<Id>, x: Id, i: nat)
    requires Lists(list) && 1 <= i <= ARTIFACTS && k <= ARTIFACTS && Built(nodes, edges, child, chain, k)
    requires x !in nodes && (i < ARTIFACTS ==> x == ParentOf(child, Artifact(i)))
    ensures BelowBy(list, AllEdges(edges, child, chain, k, context), x, i)
         == Below(AllEdges(edges, child, chain, k, context), x, i)
    decreases ARTIFACTS - i
  {
    BuiltParts(nodes, edges, child, chain, k);
    hide FirstBy, FirstChild, ChildrenOf, AllEdges, Closed, Artifact, ParentOf, Built, Lists;
    var all := AllEdges(edges, child, chain, k, context);
    if i < ARTIFACTS {
      NextArtifact(nodes.Keys, edges, child, chain, k, context, x, Artifact(i));
      OneIsFirst(list, all, x, By(Artifact(i)));
      IndexOfArtifact(i);
      if i < k {
        OneDeliberation(list, nodes, edges, child, chain, k, context, i);
        NextParent(child, i);
        BelowByIsSpine(list, nodes, edges, child, chain, k, context, Clone(child, Artifact(i)), i + 1);
      }
    }
  }

  lemma NextParent(child: string, i: nat)
    requires 1 <= i < ARTIFACTS
    ensures i + 1 < ARTIFACTS ==> ParentOf(child, Artifact(i + 1)) == Clone(child, Artifact(i))
  {
    if i + 1 < ARTIFACTS { IndexOfArtifact(i + 1); }
  }

  lemma OneDeliberation(list: seq<Id> -> seq<Id>, nodes: map<Id, Node>, edges: seq<Edge<Id, Kind>>, child: string,
                        chain: map<ChainKey, Id>, k: nat, context: Option<Id>, i: nat)
    requires Lists(list) && i < k <= ARTIFACTS && Built(nodes, edges, child, chain, k)
    ensures var all, x := AllEdges(edges, child, chain, k, context), Clone(child, Artifact(i));
            FoundBy(list, all, x, i) == Found(all, x, i)
  {
    hide FirstBy, FirstChild, ChildrenOf, AllEdges, Closed, Built, HasAll, Artifact, Lists;
    BuiltParts(nodes, edges, child, chain, k);
    if Artifact(i) == PMRun {
      PMRunIsFourth(nodes, edges, child, chain, k, i);
      DeliberationOfClone(nodes, edges, child, chain, k, context);
      OneIsFirst(list, AllEdges(edges, child, chain, k, context), Clone(child, PMRun), DeliberatedBy);
    }
  }

  lemma PMRunIsFourth(nodes: map<Id, Node>, edges: seq<Edge<Id, Kind>>, child: string, chain: map<ChainKey, Id>, k: nat,
                      i: nat)
    requires i < k <= ARTIFACTS && Built(nodes, edges, child, chain, k) && Artifact(i) == PMRun
    ensures 4 < k && At(PMRun) in chain
  {
    hide FirstChild, Closed;
    IndexOfArtifact(i);
    assert At(Artifact(i)) in chain;
  }

  /** After a placement the chain walk of the child returns exactly the prefix, in whichever order a
      backend lists children: below the child there is never more than one. */
  lemma ChildSeesExactlyThePrefixBy(list: seq<Id> -> seq<Id>, before: map<Id, Node>, edges: seq<Edge<Id, Kind>>,
                                    after: map<Id, Node>, edgesAfter: seq<Edge<Id, Kind>>, source: string, stage: Stage,
                                    render: Value -> string)
    requires Lists(list) && Closed(edges, before.Keys) && IsPlaced(before, edges, after, edgesAfter, source, stage, render)
    ensures var chain, child := Chain(before, edges, source), ChildRun(source, stage);
            SeesPrefix(ChainBy(list, after, edgesAfter, child), child, chain, Index(stage))
  {
    var chain, child, k := Chain(before, edges, source), ChildRun(source, stage), Index(stage);
    var context := Added(edges, child, Context(before, chain, k, render));
    ChildSeesExactlyThePrefix(before, edges, after, edgesAfter, source, stage, render);
    ChainDeliberation(before, edges, source);
    assert edgesAfter == AllEdges(edges, child, chain, k, context);
    hide FirstChild, ChildrenOf, AllEdges, Closed, IsSyncMarker, Cloned, ChildRun, Context, Below, BelowBy, Added, SeesPrefix, Lists,
      FirstMarker;
    assert Built(before, edges, child, chain, k);
    NextArtifact(before.Keys, edges, child, chain, k, context, Request(child), PositionSync);
    FirstMarkerOfOne(list, after, ChildrenOf(edgesAfter, Request(child), By(PositionSync)));
    BelowByIsSpine(list, before, edges, child, chain, k, context, Request(child), 1);
  }

  // ----- the query's listing -------------------------------------------------------------------

  function Inserted(s: seq<Id>, x: Id): seq<Id> {
    if s == [] || !Less(KeyOf(x), KeyOf(s[|s| - 1])) then s + [x]
    else Inserted(s[..|s| - 1], x) + [s[|s| - 1]]
  }

  /** The children by key. */
  function ByKey(s: seq<Id>): seq<Id> {
    if s == [] then [] else Inserted(ByKey(s[..|s| - 1]), s[|s| - 1])
  }

  ghost predicate KeysRise(s: seq<Id>) {
    forall i, j :: 0 <= i < j < |s| ==> !Less(KeyOf(s[j]), KeyOf(s[i]))
  }

  lemma {:induction false} InsertedHolds(s: seq<Id>, x: Id)
    requires KeysRise(s)
    ensures KeysRise(Inserted(s, x)) && forall y :: y in Inserted(s, x) <==> y == x || y in s
  {
    hide KeyOf, Less;
    if s == [] {
    } else if !Less(KeyOf(x), KeyOf(s[|s| - 1])) {
      forall i | 0 <= i < |s| ensures !Less(KeyOf(x), KeyOf(s[i])) {
        if Less(KeyOf(x), KeyOf(s[i])) && i < |s| - 1 { NotLessTransitive(KeyOf(x), KeyOf(s[i]), KeyOf(s[|s| - 1])); }
      }
    } else {
      var most, last := s[..|s| - 1], s[|s| - 1];
      var r := Inserted(most, x);
      InsertedHolds(most, x);
      LessAsymmetric(KeyOf(x), KeyOf(last));
      assert forall y :: y in s <==> y in most || y == last;
      forall i | 0 <= i < |r| ensures !Less(KeyOf(last), KeyOf(r[i])) {
        assert r[i] in r;
        LastIsGreatest(s, x, r[i]);
      }
    }
  }

  lemma LastIsGreatest(s: seq<Id>, x: Id, y: Id)
    requires s != [] && KeysRise(s) && !Less(KeyOf(s[|s| - 1]), KeyOf(x)) && (y == x || y in s[..|s| - 1])
    ensures !Less(KeyOf(s[|s| - 1]), KeyOf(y))
  {
    hide KeyOf, Less;
    if y != x {
      var j :| 0 <= j < |s| - 1 && s[..|s| - 1][j] == y;
      assert s[j] == y;
    }
  }

  lemma {:induction false} InsertedDistinct(s: seq<Id>, x: Id)
    requires KeysRise(s) && NoDuplicates(s) && x !in s
    ensures NoDuplicates(Inserted(s, x))
  {
    hide KeyOf, Less;
    if s != [] && Less(KeyOf(x), KeyOf(s[|s| - 1])) {
      var most, last := s[..|s| - 1], s[|s| - 1];
      InsertedDistinct(most, x);
      InsertedHolds(most, x);
      assert last !in most;
      var r := Inserted(most, x);
      forall i | 0 <= i < |r| ensures r[i] != last { assert r[i] in r; }
    }
  }

  lemma NotLessTransitive(x: string, a: string, b: string)
    requires Less(x, a) && !Less(b, a)
    ensures Less(x, b)
  {
    if a != b {
      LessTotal(a, b);
      LessTransitive(x, a, b);
    }
  }

  lemma {:induction false} ByKeyHolds(s: seq<Id>)
    ensures KeysRise(ByKey(s)) && forall y :: y in ByKey(s) <==> y in s
    ensures NoDuplicates(s) ==> NoDuplicates(ByKey(s))
  {
    if s != [] {
      var most, last := s[..|s| - 1], s[|s| - 1];
      ByKeyHolds(most);
      InsertedHolds(ByKey(most), last);
      if NoDuplicates(s) {
        assert last !in most;
        InsertedDistinct(ByKey(most), last);
      }
      assert forall y :: y in s <==> y in most || y == last;
    }
  }

  lemma ByKeyLists()
    ensures Lists(ByKey)
  {
    forall s, x ensures x in ByKey(s) <==> x in s { ByKeyHolds(s); }
  }

  /** Where a node has no edge to itself, its children by key are the rows of the query. */
  lemma ByKeyIsTheQuery(edges: seq<Edge<Id, Kind>>, ids: set<Id>, text: Id -> string, x: Id, kind: Kind)
    requires Closed(edges, ids) && Named(ids, text) && !Step(edges, View(Kinds({kind}), true), x, x)
    ensures QueryRows(edges, ids, View(Kinds({kind}), true), text, KeyOf, x, 1, ByKey(ChildrenOf(edges, x, kind)))
  {
    var v := View(Kinds({kind}), true);
    WalkOfOne(edges, v, x);
    LevelIs(edges, v, {x}, {x});
    var rows := ByKey(ChildrenOf(edges, x, kind));
    ByKeyHolds(ChildrenOf(edges, x, kind));
    assert forall y :: y in rows <==> Step(edges, v, x, y);
    forall y, d: nat ensures Selected(edges, ids, v, text, x, 1, y, d) <==> d == 1 && Step(edges, v, x, y) {
      OneStepSelected(edges, ids, v, text, x, y, d);
    }
    hide Selected, Step, ByKey, KeyOf, Less, ChildrenOf;
    forall y ensures y in rows <==> exists d: nat :: Selected(edges, ids, v, text, x, 1, y, d) {
      if y in rows { assert Selected(edges, ids, v, text, x, 1, y, 1); }
    }
  }

  lemma OneStepSelected(edges: seq<Edge<Id, Kind>>, ids: set<Id>, v: View<Kind>, text: Id -> string, x: Id, y: Id, d: nat)
    requires Closed(edges, ids) && Named(ids, text)
    ensures Selected(edges, ids, v, text, x, 1, y, d) <==> d == 1 && Step(edges, v, x, y)
  {
    QueryIsShortest(edges, ids, v, text, x, 1, y, d);
    hide Selected, Step, Closed, Named;
    if Reaches(edges, v, x, y, 1) {
      var p :| IsWalk(edges, v, x, p) && |p| == 1 && End(x, p) == y;
      assert Step(edges, v, End(x, p[..0]), p[0]);
    }
    if Step(edges, v, x, y) {
      assert IsWalk(edges, v, x, [y]) by { assert [y][..0] == []; }
    }
  }
}
