/** A repeated resume call on the PostgreSQL backend, whose traversal lists the nodes of one depth by
    key (`kernel/graph_postgres_queries.py`): the clones of the position sync and of the market data,
    both one step below the request, come back the other way round. */
module ResumeQuery {
  import opened Options
  import opened Props
  import opened CreatedAt
  import opened Traversal
  import opened GraphStore
  import opened Resume
  import opened ResumeChain

  /** How far below the child's request an artifact's clone is. */
  function DepthOf(s: Stage): nat { if Index(s) <= 1 then 1 else Index(s) }

  ghost predicate IsCloneAt(child: string, k: nat, x: Id, d: nat) {
    x.Clone? && x.run == child && Index(x.stage) < k && d == DepthOf(x.stage)
  }

  /** Among the artifact edges the only way on from a child's node is to the next clone. */
  lemma TreeStep(nodes: map<Id, Node>, edges: seq<Edge<Id, Kind>>, child: string, chain: map<ChainKey, Id>, k: nat,
                 context: Option<Id>, x: Id, y: Id)
    requires k <= ARTIFACTS && Built(nodes, edges, child, chain, k) && x !in nodes
    ensures Step(AllEdges(edges, child, chain, k, context), TreeView(), x, y) <==>
            y.Clone? && y.run == child && Index(y.stage) < k && x == ParentOf(child, y.stage)
  {
    BuiltParts(nodes, edges, child, chain, k);
    hide Built, ParentOf, AllEdges, Index;
    var all, v := AllEdges(edges, child, chain, k, context), TreeView();
    if Step(all, v, x, y) {
      var i :| 0 <= i < |all| && Allowed(all[i], v) && Source(all[i], v) == x && Target(all[i], v) == y;
      OwnArtifactEdge(nodes, edges, child, chain, k, context, all[i]);
    }
    if y.Clone? && y.run == child && Index(y.stage) < k && x == ParentOf(child, y.stage) {
      var e := Link(x, y, By(y.stage));
      ByEdges(child, chain, edges, k, y.stage);
      assert e in all by { InAll(edges, child, chain, k, context, e); }
      var i :| 0 <= i < |all| && all[i] == e;
      assert Allowed(all[i], v) && Source(all[i], v) == x && Target(all[i], v) == y;
    }
  }

  lemma InAll(edges: seq<Edge<Id, Kind>>, child: string, chain: map<ChainKey, Id>, k: nat, context: Option<Id>,
              e: Edge<Id, Kind>)
    requires k <= ARTIFACTS && Run in chain && HasAll(chain, k) && e in ChildEdges(child, chain, edges, k)
    ensures e in AllEdges(edges, child, chain, k, context)
  {
    hide ChildEdges;
  }

  /** An artifact edge that leaves no stored node is one of the child's. */
  lemma OwnArtifactEdge(nodes: map<Id, Node>, edges: seq<Edge<Id, Kind>>, child: string, chain: map<ChainKey, Id>, k: nat,
                        context: Option<Id>, e: Edge<Id, Kind>)
    requires k <= ARTIFACTS && Run in chain && HasAll(chain, k) && Closed(edges, nodes.Keys)
    requires e in AllEdges(edges, child, chain, k, context) && Allowed(e, TreeView()) && e.parent !in nodes
    ensures e.kind.By? && Index(e.kind.stage) < k
    ensures e == Link(ParentOf(child, e.kind.stage), Clone(child, e.kind.stage), e.kind)
  {
    assert e.kind.By?;
    assert e in ChildEdges(child, chain, edges, k);
    hide AllEdges, ChildEdges, ParentOf, Index;
    ByEdges(child, chain, edges, k, e.kind.stage);
  }

  lemma DepthBelow(child: string, x: Id, s: Stage, k: nat, d: nat)
    requires x == ParentOf(child, s) && Index(s) < k
    ensures d == 0 && x == Request(child) ==> DepthOf(s) == 1
    ensures d > 0 && IsCloneAt(child, k, x, d) ==> DepthOf(s) == d + 1
  {
    if Index(s) > 1 { IndexOfArtifact(Index(s) - 1); }
  }

  /** The walks of a child's tree: each clone has one length, its depth. */
  lemma {:induction false} TreeDepths(nodes: map<Id, Node>, edges: seq<Edge<Id, Kind>>, child: string,
                                      chain: map<ChainKey, Id>, k: nat, context: Option<Id>, y: Id, d: nat)
    requires k <= ARTIFACTS && Built(nodes, edges, child, chain, k)
    requires Reaches(AllEdges(edges, child, chain, k, context), TreeView(), Request(child), y, d)
    ensures if d == 0 then y == Request(child) else IsCloneAt(child, k, y, d)
    decreases d
  {
    BuiltParts(nodes, edges, child, chain, k);
    hide AllEdges, TreeView, Step, ParentOf, Built;
    var all := AllEdges(edges, child, chain, k, context);
    if d == 0 {
      var p: seq<Id> :| IsWalk(all, TreeView(), Request(child), p) && |p| == 0 && End(Request(child), p) == y;
    } else {
      var x := ReachesBack(all, TreeView(), Request(child), y, d - 1);
      hide Reaches;
      TreeDepths(nodes, edges, child, chain, k, context, x, d - 1);
      NewNodes(nodes, edges, child, chain, k);
      TreeStep(nodes, edges, child, chain, k, context, x, y);
      DepthBelow(child, x, y.stage, k, d - 1);
    }
  }

  lemma NewNodes(nodes: map<Id, Node>, edges: seq<Edge<Id, Kind>>, child: string, chain: map<ChainKey, Id>, k: nat)
    requires k <= ARTIFACTS && Built(nodes, edges, child, chain, k)
    ensures Request(child) !in nodes && forall s :: Clone(child, s) !in nodes
  {
  }

  /** ... and that length is reached. */
  lemma {:induction false} CloneReached(nodes: map<Id, Node>, edges: seq<Edge<Id, Kind>>, child: string,
                                        chain: map<ChainKey, Id>, k: nat, context: Option<Id>, s: Stage)
    requires k <= ARTIFACTS && Built(nodes, edges, child, chain, k) && Index(s) < k
    ensures Reaches(AllEdges(edges, child, chain, k, context), TreeView(), Request(child), Clone(child, s), DepthOf(s))
    decreases Index(s)
  {
    var all, root := AllEdges(edges, child, chain, k, context), Request(child);
    NewNodes(nodes, edges, child, chain, k);
    if Index(s) <= 1 {
      assert IsWalk(all, TreeView(), root, []);
      assert Reaches(all, TreeView(), root, root, 0);
      hide AllEdges, TreeView, Step, Reaches, Built;
      TreeStep(nodes, edges, child, chain, k, context, root, Clone(child, s));
      ReachesNext(all, TreeView(), root, root, Clone(child, s), 0);
    } else {
      var t := Artifact(Index(s) - 1);
      IndexOfArtifact(Index(s) - 1);
      hide AllEdges, TreeView, Step, Reaches, Built;
      CloneReached(nodes, edges, child, chain, k, context, t);
      TreeStep(nodes, edges, child, chain, k, context, Clone(child, t), Clone(child, s));
      ReachesNext(all, TreeView(), root, Clone(child, t), Clone(child, s), DepthOf(t));
    }
  }

  /** The query selects exactly the child's clones, each at its depth. */
  lemma TreeSelected(nodes: map<Id, Node>, edges: seq<Edge<Id, Kind>>, child: string, chain: map<ChainKey, Id>, k: nat,
                     context: Option<Id>, ids: set<Id>, text: Id -> string, x: Id, d: nat)
    requires k <= ARTIFACTS && Built(nodes, edges, child, chain, k)
    requires Closed(AllEdges(edges, child, chain, k, context), ids) && Named(ids, text)
    ensures Selected(AllEdges(edges, child, chain, k, context), ids, TreeView(), text, Request(child), 8, x, d) <==>
            IsCloneAt(child, k, x, d)
  {
    BuiltParts(nodes, edges, child, chain, k);
    hide AllEdges, TreeView, Reaches, Built, Selected, Closed, Named, Index;
    var all, root := AllEdges(edges, child, chain, k, context), Request(child);
    QueryIsShortest(all, ids, TreeView(), text, root, 8, x, d);
    forall c: nat | Reaches(all, TreeView(), root, x, c) ensures if c == 0 then x == root else IsCloneAt(child, k, x, c) {
      TreeDepths(nodes, edges, child, chain, k, context, x, c);
    }
    if IsCloneAt(child, k, x, d) { CloneReached(nodes, edges, child, chain, k, context, x.stage); }
  }

  // ----- the order of the rows -----------------------------------------------------------------

  /** Where a clone stands among the rows. */
  function Rank(x: Id): nat {
    match x
    case Clone(_, stage) => if stage == MarketData then 0 else if stage == PositionSync then 1 else Index(stage)
    case _ => 0
  }

  ghost predicate Rising<N>(s: seq<N>, rank: N -> nat) {
    forall i, j :: 0 <= i < j < |s| ==> rank(s[i]) < rank(s[j])
  }

  lemma {:induction false} RisingUnique<N(!new)>(s: seq<N>, t: seq<N>, rank: N -> nat)
    requires Rising(s, rank) && Rising(t, rank) && forall x :: x in s <==> x in t
    ensures s == t
  {
    if s != [] { StaysNonEmpty(s, t); }
    if t != [] { StaysNonEmpty(t, s); }
    if s != [] {
      SameFirst(s, t, rank);
      SameRest(s, t, rank);
      RisingUnique(s[1..], t[1..], rank);
      assert s == [s[0]] + s[1..] && t == [t[0]] + t[1..];
    }
  }

  lemma StaysNonEmpty<N(!new)>(s: seq<N>, t: seq<N>)
    requires s != [] && forall x :: x in s ==> x in t
    ensures t != []
  {
    assert s[0] in s;
  }

  lemma SameFirst<N>(s: seq<N>, t: seq<N>, rank: N -> nat)
    requires s != [] && t != [] && Rising(s, rank) && Rising(t, rank) && s[0] in t && t[0] in s
    ensures s[0] == t[0]
  {
    var i :| 0 <= i < |t| && t[i] == s[0];
    var j :| 0 <= j < |s| && s[j] == t[0];
  }

  lemma SameRest<N(!new)>(s: seq<N>, t: seq<N>, rank: N -> nat)
    requires s != [] && t != [] && s[0] == t[0] && Rising(s, rank) && Rising(t, rank) && forall x :: x in s <==> x in t
    ensures Rising(s[1..], rank) && Rising(t[1..], rank) && forall x :: x in s[1..] <==> x in t[1..]
  {
    RestWithout(s, rank);
    RestWithout(t, rank);
  }

  lemma RestWithout<N(!new)>(s: seq<N>, rank: N -> nat)
    requires s != [] && Rising(s, rank)
    ensures Rising(s[1..], rank) && forall x :: x in s[1..] <==> x in s && x != s[0]
  {
    assert forall x :: x in s <==> x == s[0] || x in s[1..];
    assert forall x :: x in s[1..] ==> rank(s[0]) < rank(x);
  }

  /** The market data's key sorts before the position sync's. */
  lemma MarketDataSortsFirst(child: string)
    ensures Less(KeyOf(Clone(child, MarketData)), KeyOf(Clone(child, PositionSync)))
    ensures !Less(KeyOf(Clone(child, PositionSync)), KeyOf(Clone(child, MarketData)))
  {
    CancelPrefix("resume-link:" + child + ":", "marketdata", "positionsync");
    LessAsymmetric(KeyOf(Clone(child, MarketData)), KeyOf(Clone(child, PositionSync)));
  }

  /** By depth and then by key is by rank. */
  lemma OrderIsRank(child: string, k: nat, x: Id, y: Id, c: nat, d: nat)
    requires IsCloneAt(child, k, x, c) && IsCloneAt(child, k, y, d) && x != y
    ensures Rank(x) < Rank(y) <==> c < d || (c == d && !Less(KeyOf(y), KeyOf(x)))
  {
    MarketDataSortsFirst(child);
    assert x.stage != y.stage;
    assert Artifact(Index(x.stage)) != Artifact(Index(y.stage));
    assert forall s :: (Index(s) == 0 <==> s == PositionSync) && (Index(s) == 1 <==> s == MarketData);
    hide Less, KeyOf;
  }

  /** The first two elements exchanged, when there are two. */
  function Exchanged<X>(s: seq<X>): seq<X> {
    if |s| < 2 then s else [s[1], s[0]] + s[2..]
  }

  lemma {:induction false} ClonesAt(child: string, k: nat)
    requires k <= ARTIFACTS
    ensures |Clones(child, 0, k)| == k && forall m :: 0 <= m < k ==> Clones(child, 0, k)[m] == Clone(child, Artifact(m))
  {
    hide Artifact;
    if k > 0 { ClonesAt(child, k - 1); }
  }

  /** The position of an artifact among the exchanged clones. */
  function Swapped(m: nat, k: nat): nat { if k < 2 || m > 1 then m else 1 - m }

  /** The exchanged clones one by one: with two or more of them each stands at its rank. */
  lemma ExchangedAt(child: string, k: nat, m: nat)
    requires m < k <= ARTIFACTS
    ensures var rows := Exchanged(Clones(child, 0, k));
            && |rows| == k && rows[m] == Clone(child, Artifact(Swapped(m, k)))
            && IsCloneAt(child, k, rows[m], DepthOf(rows[m].stage))
            && (k >= 2 ==> Rank(rows[m]) == m)
  {
    ClonesAt(child, k);
    IndexOfArtifact(Swapped(m, k));
    hide Clones, Artifact;
    assert Index(PositionSync) == 0 && Index(MarketData) == 1;
  }

  /** The exchanged clones rise by rank, and are the child's clones. */
  lemma ExchangedRises(child: string, k: nat)
    requires k <= ARTIFACTS
    ensures var rows := Exchanged(Clones(child, 0, k));
            && Rising(rows, Rank)
            && forall x :: x in rows <==> exists d: nat :: IsCloneAt(child, k, x, d)
  {
    ClonesAt(child, k);
    hide Clones, Artifact, Rank, DepthOf, Index;
    var rows := Exchanged(Clones(child, 0, k));
    forall m | 0 <= m < k
      ensures IsCloneAt(child, k, rows[m], DepthOf(rows[m].stage)) && (k >= 2 ==> Rank(rows[m]) == m)
    {
      ExchangedAt(child, k, m);
    }
    hide Exchanged;
    forall x, d: nat | IsCloneAt(child, k, x, d) ensures x in rows { CloneAmongRows(child, k, x.stage); }
  }

  lemma CloneAmongRows(child: string, k: nat, s: Stage)
    requires Index(s) < k <= ARTIFACTS
    ensures Clone(child, s) in Exchanged(Clones(child, 0, k))
  {
    var m := Swapped(Index(s), k);
    ExchangedAt(child, k, m);
    assert Swapped(m, k) == Index(s);
    hide Exchanged, Clones;
    assert Exchanged(Clones(child, 0, k))[m] == Clone(child, s);
  }

  /** The child's tree on the query: the clones in artifact order, but for the first two, which are
      exchanged. */
  lemma QueryTree(nodes: map<Id, Node>, edges: seq<Edge<Id, Kind>>, child: string, chain: map<ChainKey, Id>, k: nat,
                  context: Option<Id>, ids: set<Id>, text: Id -> string, rows: seq<Id>)
    requires k <= ARTIFACTS && Built(nodes, edges, child, chain, k)
    requires Closed(AllEdges(edges, child, chain, k, context), ids) && Named(ids, text)
    ensures QueryRows(AllEdges(edges, child, chain, k, context), ids, TreeView(), text, KeyOf, Request(child), 8, rows) <==>
            rows == Exchanged(Clones(child, 0, k))
  {
    BuiltParts(nodes, edges, child, chain, k);
    hide AllEdges, TreeView, Built, Selected, Closed, Named, Index, DepthOf, Clones, Exchanged;
    var all, root, made := AllEdges(edges, child, chain, k, context), Request(child), Exchanged(Clones(child, 0, k));
    forall x, d: nat ensures Selected(all, ids, TreeView(), text, root, 8, x, d) <==> IsCloneAt(child, k, x, d) {
      TreeSelected(nodes, edges, child, chain, k, context, ids, text, x, d);
    }
    ExchangedRises(child, k);
    if QueryRows(all, ids, TreeView(), text, KeyOf, root, 8, rows) {
      RowsRise(all, ids, text, child, k, rows);
      RisingUnique(rows, made, Rank);
    }
    RisingIsRows(all, ids, text, child, k, made);
  }

  lemma RowsRise(all: seq<Edge<Id, Kind>>, ids: set<Id>, text: Id -> string, child: string, k: nat, rows: seq<Id>)
    requires forall x, d: nat :: Selected(all, ids, TreeView(), text, Request(child), 8, x, d) <==> IsCloneAt(child, k, x, d)
    requires QueryRows(all, ids, TreeView(), text, KeyOf, Request(child), 8, rows)
    ensures Rising(rows, Rank) && forall x :: x in rows <==> exists d: nat :: IsCloneAt(child, k, x, d)
  {
    hide TreeView, Selected, Rank, KeyOf, Less, IsCloneAt;
    forall i, j | 0 <= i < j < |rows| ensures Rank(rows[i]) < Rank(rows[j]) {
      assert rows[i] in rows && rows[j] in rows;
      var c: nat :| IsCloneAt(child, k, rows[i], c);
      var d: nat :| IsCloneAt(child, k, rows[j], d);
      OrderIsRank(child, k, rows[i], rows[j], c, d);
    }
  }

  lemma RisingIsRows(all: seq<Edge<Id, Kind>>, ids: set<Id>, text: Id -> string, child: string, k: nat, rows: seq<Id>)
    requires forall x, d: nat :: Selected(all, ids, TreeView(), text, Request(child), 8, x, d) <==> IsCloneAt(child, k, x, d)
    requires Rising(rows, Rank) && forall x :: x in rows <==> exists d: nat :: IsCloneAt(child, k, x, d)
    ensures QueryRows(all, ids, TreeView(), text, KeyOf, Request(child), 8, rows)
  {
    hide TreeView, Selected, Rank, KeyOf, Less, IsCloneAt;
    forall i, j, c: nat, d: nat | 0 <= i < j < |rows| && IsCloneAt(child, k, rows[i], c) && IsCloneAt(child, k, rows[j], d)
      ensures c < d || (c == d && !Less(KeyOf(rows[j]), KeyOf(rows[i])))
    {
      OrderIsRank(child, k, rows[i], rows[j], c, d);
    }
  }

  // ----- a repeated call -----------------------------------------------------------------------

  lemma {:induction false} SourcesAppend(edges: seq<Edge<Id, Kind>>, a: seq<Id>, b: seq<Id>)
    ensures SourcesOf(edges, a + b) == SourcesOf(edges, a) + SourcesOf(edges, b)
  {
    hide FirstChild;
    if b == [] {
      assert a + b == a;
    } else {
      assert (a + b)[..|a + b| - 1] == a + b[..|b| - 1];
      SourcesAppend(edges, a, b[..|b| - 1]);
    }
  }

  /** Sources follow their clones through the exchange. */
  lemma SourcesExchange(edges: seq<Edge<Id, Kind>>, clones: seq<Id>)
    requires forall x :: x in clones ==> FirstChild(edges, x, LinkedFrom).Some?
    ensures SourcesOf(edges, Exchanged(clones)) == Exchanged(SourcesOf(edges, clones))
  {
    hide FirstChild;
    if |clones| < 2 {
      SourcesOfEach(edges, clones);
    } else {
      assert clones == [clones[0], clones[1]] + clones[2..];
      assert Exchanged(clones) == [clones[1], clones[0]] + clones[2..];
      SourcesAppend(edges, [clones[0], clones[1]], clones[2..]);
      SourcesAppend(edges, [clones[1], clones[0]], clones[2..]);
      SourcesOfTwo(edges, clones[0], clones[1]);
      SourcesOfTwo(edges, clones[1], clones[0]);
    }
  }

  lemma SourcesOfTwo(edges: seq<Edge<Id, Kind>>, x: Id, y: Id)
    requires FirstChild(edges, x, LinkedFrom).Some? && FirstChild(edges, y, LinkedFrom).Some?
    ensures SourcesOf(edges, [x, y]) == [FirstChild(edges, x, LinkedFrom).value, FirstChild(edges, y, LinkedFrom).value]
  {
    hide FirstChild;
    assert [x, y][..1] == [x] && [x][..0] == [];
    assert SourcesOf(edges, [x]) == [FirstChild(edges, x, LinkedFrom).value];
  }

  lemma {:induction false} SourcesOfEach(edges: seq<Edge<Id, Kind>>, clones: seq<Id>)
    ensures |SourcesOf(edges, clones)| <= |clones|
  {
    hide FirstChild;
    if clones != [] { SourcesOfEach(edges, clones[..|clones| - 1]); }
  }

  /** On the query a repeated call reads back the first call's references with the first two, the
      position sync's and the market data's, exchanged; the same references in the same order only
      when the stage requires at most the position sync, or when both are one node. */
  lemma RepeatOnQueryExchanges(before: map<Id, Node>, edges: seq<Edge<Id, Kind>>, after: map<Id, Node>,
                               edgesAfter: seq<Edge<Id, Kind>>, source: string, stage: Stage, render: Value -> string,
                               text: Id -> string, rows: seq<Id>)
    requires Closed(edges, before.Keys) && IsPlaced(before, edges, after, edgesAfter, source, stage, render)
    requires Closed(edgesAfter, after.Keys) && Named(after.Keys, text)
    requires QueryRows(edgesAfter, after.Keys, TreeView(), text, KeyOf, Request(ChildRun(source, stage)), 8, rows)
    ensures var chain, k := Chain(before, edges, source), Index(stage);
            && SourcesOf(edgesAfter, rows) == Exchanged(Refs(chain, k))
            && (SourcesOf(edgesAfter, rows) == Refs(chain, k) <==>
                k < 2 || chain[At(PositionSync)] == chain[At(MarketData)])
  {
    var chain, child, k := Chain(before, edges, source), ChildRun(source, stage), Index(stage);
    var context := Added(edges, child, Context(before, chain, k, render));
    ChainDeliberation(before, edges, source);
    assert edgesAfter == AllEdges(edges, child, chain, k, context);
    hide FirstChild, AllEdges, Closed, IsSyncMarker, Cloned, ChildRun, Context, Below, Chain, Added, QueryRows, Named;
    assert Built(before, edges, child, chain, k);
    QueryTree(before, edges, child, chain, k, context, after.Keys, text, rows);
    SourcesAreRefs(before, edges, child, chain, k, context, k);
    ClonesHaveSources(before, edges, child, chain, k, context);
    SourcesExchange(edgesAfter, Clones(child, 0, k));
    ExchangedRefs(chain, k);
  }

  lemma ClonesHaveSources(nodes: map<Id, Node>, edges: seq<Edge<Id, Kind>>, child: string, chain: map<ChainKey, Id>,
                          k: nat, context: Option<Id>)
    requires k <= ARTIFACTS && Built(nodes, edges, child, chain, k)
    ensures forall x :: x in Clones(child, 0, k) ==>
              FirstChild(AllEdges(edges, child, chain, k, context), x, LinkedFrom).Some?
  {
    ClonesAt(child, k);
    BuiltParts(nodes, edges, child, chain, k);
    hide FirstChild, AllEdges, Closed, Clones, Artifact, Built;
    forall m | 0 <= m < k
      ensures FirstChild(AllEdges(edges, child, chain, k, context), Clone(child, Artifact(m)), LinkedFrom).Some?
    {
      OneSource(nodes, edges, child, chain, k, context, m);
    }
  }

  lemma OneSource(nodes: map<Id, Node>, edges: seq<Edge<Id, Kind>>, child: string, chain: map<ChainKey, Id>,
                  k: nat, context: Option<Id>, m: nat)
    requires m < k <= ARTIFACTS && Built(nodes, edges, child, chain, k)
    ensures FirstChild(AllEdges(edges, child, chain, k, context), Clone(child, Artifact(m)), LinkedFrom).Some?
  {
    hide FirstChild, Artifact;
    IndexOfArtifact(m);
    SourceOfClone(nodes.Keys, edges, child, chain, k, context, Artifact(m));
  }

  lemma ExchangedRefs(chain: map<ChainKey, Id>, k: nat)
    requires k <= ARTIFACTS && HasAll(chain, k)
    ensures k >= 2 ==> At(PositionSync) in chain && At(MarketData) in chain
    ensures Exchanged(Refs(chain, k)) == Refs(chain, k) <==> k < 2 || chain[At(PositionSync)] == chain[At(MarketData)]
  {
    var refs := Refs(chain, k);
    assert |refs| == k;
    if k >= 2 {
      assert Artifact(0) == PositionSync && Artifact(1) == MarketData;
      assert refs[0] == chain[At(PositionSync)] && refs[1] == chain[At(MarketData)];
      assert refs == [refs[0], refs[1]] + refs[2..];
      assert Exchanged(refs)[0] == refs[1];
    }
  }
}
