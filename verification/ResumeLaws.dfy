/** What the chain walk of the in-memory backend finds (`orchestration/batch_chain.py`) and what a placement
    writes (`orchestration/resume.py`), in terms of the stored edges and properties alone. */
module ResumeLaws {
  import opened Options
  import opened Props
  import opened Traversal
  import opened GraphStore
  import opened Resume
  import opened ResumeChain
  import opened ResumeSignatures

  /** The edge leads from `x`, by its type, to another node. */
  predicate LeadsOn(e: Edge<Id, Kind>, x: Id, kind: Kind) {
    e.parent == x && e.kind == kind && e.child != x
  }

  /** Edge `k` is the first such edge. */
  ghost predicate FirstAt(edges: seq<Edge<Id, Kind>>, x: Id, kind: Kind, k: nat): (r: bool)
    ensures r ==> k < |edges|
  {
    k < |edges| && LeadsOn(edges[k], x, kind) && forall m :: 0 <= m < k ==> !LeadsOn(edges[m], x, kind)
  }

  /** `y` is where it leads. */
  ghost predicate FirstDown(edges: seq<Edge<Id, Kind>>, x: Id, kind: Kind, y: Id) {
    exists k: nat :: FirstAt(edges, x, kind, k) && edges[k].child == y
  }

  /** A monitor run of the sync phase. */
  ghost predicate IsSyncRun(nodes: map<Id, Node>, x: Id) {
    NodeLabel(x) == "MonitorRun" && x in nodes && "phase" in nodes[x].props && nodes[x].props["phase"] == Text("sync")
  }

  /** The edge leads from the request to a monitor run of the sync phase. */
  ghost predicate LeadsToSync(nodes: map<Id, Node>, e: Edge<Id, Kind>, x: Id) {
    LeadsOn(e, x, By(PositionSync)) && IsSyncRun(nodes, e.child)
  }

  ghost predicate FirstSyncAt(nodes: map<Id, Node>, edges: seq<Edge<Id, Kind>>, x: Id, k: nat): (r: bool)
    ensures r ==> k < |edges|
  {
    k < |edges| && LeadsToSync(nodes, edges[k], x) && forall m :: 0 <= m < k ==> !LeadsToSync(nodes, edges[m], x)
  }

  ghost predicate FirstSync(nodes: map<Id, Node>, edges: seq<Edge<Id, Kind>>, x: Id, y: Id) {
    exists k: nat :: FirstSyncAt(nodes, edges, x, k) && edges[k].child == y
  }

  lemma SyncMarkerIs(nodes: map<Id, Node>, x: Id)
    ensures IsSyncMarker(nodes, x) <==> IsSyncRun(nodes, x)
  {
    match x
    case Clone(_, s) => assert |"MonitorRun"| == 10 && |"AnalystRun"| == 10 && "MonitorRun"[0] != "AnalystRun"[0];
    case _ =>
  }

  /** The children at one level, edge by edge. */
  lemma OneMoreEdge(edges: seq<Edge<Id, Kind>>, e: Edge<Id, Kind>, x: Id, kind: Kind)
    ensures var v, most := View(Kinds({kind}), true), ChildrenOf(edges, x, kind);
            ChildrenOf(edges + [e], x, kind) == if LeadsOn(e, x, kind) && e.child !in most then most + [e.child] else most
  {
    var v, all := View(Kinds({kind}), true), edges + [e];
    WalkOfOne(edges, v, x);
    WalkOfOne(all, v, x);
    assert all[..|all| - 1] == edges && all[|all| - 1] == e;
  }

  lemma NoEdges(x: Id, kind: Kind)
    ensures ChildrenOf([], x, kind) == []
  {
    WalkOfOne([], View(Kinds({kind}), true), x);
  }

  lemma FirstAtOfOneMore(edges: seq<Edge<Id, Kind>>, e: Edge<Id, Kind>, x: Id, kind: Kind, k: nat)
    ensures FirstAt(edges + [e], x, kind, k) <==>
            FirstAt(edges, x, kind, k)
            || (k == |edges| && LeadsOn(e, x, kind) && forall m :: 0 <= m < |edges| ==> !LeadsOn(edges[m], x, kind))
  {
    hide LeadsOn;
    var all := edges + [e];
    assert forall m :: 0 <= m < |edges| ==> all[m] == edges[m];
    assert all[|edges|] == e;
  }

  lemma FirstDownStays(edges: seq<Edge<Id, Kind>>, e: Edge<Id, Kind>, x: Id, kind: Kind, y: Id)
    requires FirstDown(edges, x, kind, y)
    ensures FirstDown(edges + [e], x, kind, y)
  {
    hide LeadsOn, FirstAt;
    var k: nat :| FirstAt(edges, x, kind, k) && edges[k].child == y;
    FirstAtOfOneMore(edges, e, x, kind, k);
    assert (edges + [e])[k] == edges[k];
  }

  lemma FirstDownComes(edges: seq<Edge<Id, Kind>>, e: Edge<Id, Kind>, x: Id, kind: Kind)
    requires LeadsOn(e, x, kind) && forall m :: 0 <= m < |edges| ==> !LeadsOn(edges[m], x, kind)
    ensures FirstDown(edges + [e], x, kind, e.child)
  {
    FirstAtOfOneMore(edges, e, x, kind, |edges|);
    hide LeadsOn, FirstAt;
    assert (edges + [e])[|edges|] == e;
  }

  lemma FirstDownCame(edges: seq<Edge<Id, Kind>>, e: Edge<Id, Kind>, x: Id, kind: Kind, y: Id)
    requires FirstDown(edges + [e], x, kind, y)
    ensures FirstDown(edges, x, kind, y)
            || (LeadsOn(e, x, kind) && e.child == y && forall m :: 0 <= m < |edges| ==> !LeadsOn(edges[m], x, kind))
  {
    hide LeadsOn, FirstAt;
    var all := edges + [e];
    var k: nat :| FirstAt(all, x, kind, k) && all[k].child == y;
    FirstAtOfOneMore(edges, e, x, kind, k);
    assert all[k] == if k < |edges| then edges[k] else e;
  }

  /** The first child is where the first edge leads. */
  lemma {:induction false} FirstChildIs(edges: seq<Edge<Id, Kind>>, x: Id, kind: Kind)
    ensures forall y :: FirstChild(edges, x, kind) == Some(y) <==> FirstDown(edges, x, kind, y)
    ensures FirstChild(edges, x, kind) == None <==> forall m :: 0 <= m < |edges| ==> !LeadsOn(edges[m], x, kind)
  {
    hide ChildrenOf, LeadsOn;
    if edges == [] {
      NoEdges(x, kind);
    } else {
      var most, e := edges[..|edges| - 1], edges[|edges| - 1];
      assert edges == most + [e];
      FirstChildIs(most, x, kind);
      OneMoreEdge(most, e, x, kind);
      forall y ensures FirstChild(edges, x, kind) == Some(y) <==> FirstDown(edges, x, kind, y) {
        if FirstDown(most, x, kind, y) { FirstDownStays(most, e, x, kind, y); }
        if FirstDown(edges, x, kind, y) { FirstDownCame(most, e, x, kind, y); }
        if LeadsOn(e, x, kind) && e.child == y && forall m :: 0 <= m < |most| ==> !LeadsOn(most[m], x, kind) {
          FirstDownComes(most, e, x, kind);
        }
      }
    }
  }

  lemma {:induction false} MarkerOfOneMore(nodes: map<Id, Node>, found: seq<Id>, x: Id)
    ensures FirstMarker(nodes, found + [x])
         == if FirstMarker(nodes, found).Some? then FirstMarker(nodes, found)
            else if IsSyncMarker(nodes, x) then Some(x) else None
    ensures FirstMarker(nodes, found).None? ==> forall y :: y in found ==> !IsSyncMarker(nodes, y)
  {
    hide IsSyncMarker;
    if found != [] {
      MarkerOfOneMore(nodes, found[1..], x);
      assert (found + [x])[1..] == found[1..] + [x];
    }
  }

  lemma FirstSyncAtOfOneMore(nodes: map<Id, Node>, edges: seq<Edge<Id, Kind>>, e: Edge<Id, Kind>, x: Id, k: nat)
    ensures FirstSyncAt(nodes, edges + [e], x, k) <==>
            FirstSyncAt(nodes, edges, x, k)
            || (k == |edges| && LeadsToSync(nodes, e, x) && forall m :: 0 <= m < |edges| ==> !LeadsToSync(nodes, edges[m], x))
  {
    hide LeadsToSync;
    var all := edges + [e];
    assert forall m :: 0 <= m < |edges| ==> all[m] == edges[m];
    assert all[|edges|] == e;
  }

  lemma FirstSyncOfOneMore(nodes: map<Id, Node>, edges: seq<Edge<Id, Kind>>, e: Edge<Id, Kind>, x: Id, y: Id)
    ensures FirstSync(nodes, edges + [e], x, y) <==>
            FirstSync(nodes, edges, x, y)
            || (LeadsToSync(nodes, e, x) && e.child == y && forall m :: 0 <= m < |edges| ==> !LeadsToSync(nodes, edges[m], x))
  {
    hide LeadsToSync, FirstSyncAt;
    var all := edges + [e];
    if k: nat :| FirstSyncAt(nodes, all, x, k) && all[k].child == y { FirstSyncAtOfOneMore(nodes, edges, e, x, k); }
    if k: nat :| FirstSyncAt(nodes, edges, x, k) && edges[k].child == y { FirstSyncAtOfOneMore(nodes, edges, e, x, k); }
    FirstSyncAtOfOneMore(nodes, edges, e, x, |edges|);
  }

  /** The sync marker is where the first edge to one leads. */
  lemma {:induction false} FirstMarkerIs(nodes: map<Id, Node>, edges: seq<Edge<Id, Kind>>, x: Id)
    ensures var marker := FirstMarker(nodes, ChildrenOf(edges, x, By(PositionSync)));
            && (forall y :: marker == Some(y) <==> FirstSync(nodes, edges, x, y))
            && (marker == None <==> forall m :: 0 <= m < |edges| ==> !LeadsToSync(nodes, edges[m], x))
  {
    hide ChildrenOf, LeadsOn, IsSyncRun, IsSyncMarker;
    if edges == [] {
      NoEdges(x, By(PositionSync));
    } else {
      var most, e := edges[..|edges| - 1], edges[|edges| - 1];
      assert edges == most + [e];
      FirstMarkerIs(nodes, most, x);
      OneMoreEdge(most, e, x, By(PositionSync));
      SyncMarkerIs(nodes, e.child);
      MarkerOfOneMore(nodes, ChildrenOf(most, x, By(PositionSync)), e.child);
      forall y
        ensures FirstMarker(nodes, ChildrenOf(edges, x, By(PositionSync))) == Some(y) <==> FirstSync(nodes, edges, x, y)
      {
        FirstSyncOfOneMore(nodes, most, e, x, y);
      }
    }
  }

  // ----- the chain -----------------------------------------------------------------------------

  /** The entry an artifact is looked for below. */
  function Before(i: nat): ChainKey
    requires 1 <= i < ARTIFACTS
  {
    if i == 1 then Run else At(Artifact(i - 1))
  }

  /** The entry of artifact `i` is the first child of the entry before it, if there are both. */
  ghost predicate FollowsFirst(edges: seq<Edge<Id, Kind>>, chain: map<ChainKey, Id>, i: nat)
    requires 1 <= i < ARTIFACTS
  {
    var s := Artifact(i);
    && (At(s) in chain ==> Before(i) in chain && FirstDown(edges, chain[Before(i)], By(s), chain[At(s)]))
    && (Before(i) in chain && At(s) !in chain ==>
          forall m :: 0 <= m < |edges| ==> !LeadsOn(edges[m], chain[Before(i)], By(s)))
  }

  ghost predicate SidesWithPM(edges: seq<Edge<Id, Kind>>, chain: map<ChainKey, Id>) {
    && (Deliberation in chain ==> At(PMRun) in chain && FirstDown(edges, chain[At(PMRun)], DeliberatedBy, chain[Deliberation]))
    && (At(PMRun) in chain && Deliberation !in chain ==>
          forall m :: 0 <= m < |edges| ==> !LeadsOn(edges[m], chain[At(PMRun)], DeliberatedBy))
  }

  /** Artifact `i` is the first child of `current`, if there is one. */
  ghost predicate StartsBelow(edges: seq<Edge<Id, Kind>>, chain: map<ChainKey, Id>, current: Id, i: nat)
    requires i < ARTIFACTS
  {
    var s := Artifact(i);
    && (At(s) in chain ==> FirstDown(edges, current, By(s), chain[At(s)]))
    && (At(s) !in chain ==> forall m :: 0 <= m < |edges| ==> !LeadsOn(edges[m], current, By(s)))
  }

  /** The entries from artifact `i` on. */
  ghost predicate Follows(edges: seq<Edge<Id, Kind>>, b: map<ChainKey, Id>, current: Id, i: nat)
    requires 1 <= i <= ARTIFACTS
  {
    && Run !in b && (forall s :: At(s) in b ==> i <= Index(s))
    && (i < ARTIFACTS ==> StartsBelow(edges, b, current, i))
    && (i == ARTIFACTS ==> b == map[])
    && (forall j :: i < j < ARTIFACTS ==> FollowsFirst(edges, b, j))
    && SidesWithPM(edges, b)
  }

  lemma {:induction false} BelowFollows(edges: seq<Edge<Id, Kind>>, current: Id, i: nat)
    requires 1 <= i <= ARTIFACTS
    ensures Follows(edges, Below(edges, current, i), current, i)
    decreases ARTIFACTS - i
  {
    hide FirstChild, FirstDown, LeadsOn, Artifact;
    if i < ARTIFACTS {
      FirstChildIs(edges, current, By(Artifact(i)));
      IndexOfArtifact(i);
      if FirstChild(edges, current, By(Artifact(i))).Some? {
        var next := FirstChild(edges, current, By(Artifact(i))).value;
        BelowFollows(edges, next, i + 1);
        FirstChildIs(edges, next, DeliberatedBy);
        OneMoreFound(edges, current, next, i);
      }
    }
  }

  lemma OneMoreFound(edges: seq<Edge<Id, Kind>>, current: Id, next: Id, i: nat)
    requires 1 <= i < ARTIFACTS && FirstDown(edges, current, By(Artifact(i)), next)
    requires Follows(edges, Below(edges, next, i + 1), next, i + 1)
    requires FirstChild(edges, next, DeliberatedBy).Some? ==> FirstDown(edges, next, DeliberatedBy, FirstChild(edges, next, DeliberatedBy).value)
    requires FirstChild(edges, next, DeliberatedBy).None? ==> forall m :: 0 <= m < |edges| ==> !LeadsOn(edges[m], next, DeliberatedBy)
    ensures Follows(edges, Found(edges, next, i) + Below(edges, next, i + 1), current, i)
  {
    hide FirstChild, FirstDown, LeadsOn, Artifact, Below;
    var rest := Below(edges, next, i + 1);
    var b := Found(edges, next, i) + rest;
    IndexOfArtifact(i);
    forall j | i < j < ARTIFACTS ensures FollowsFirst(edges, b, j) {
      IndexOfArtifact(j);
      IndexOfArtifact(j - 1);
      if j > i + 1 { assert FollowsFirst(edges, rest, j); }
    }
  }

  lemma UnderHead(edges: seq<Edge<Id, Kind>>, head: map<ChainKey, Id>, b: map<ChainKey, Id>)
    requires Run in head && head.Keys <= {Run, At(PositionSync)} && Follows(edges, b, head[Run], 1)
    ensures var chain := head + b;
            && chain[Run] == head[Run]
            && (At(PositionSync) in chain <==> At(PositionSync) in head)
            && (At(PositionSync) in head ==> chain[At(PositionSync)] == head[At(PositionSync)])
            && (forall i :: 1 <= i < ARTIFACTS ==> FollowsFirst(edges, chain, i))
            && SidesWithPM(edges, chain)
  {
    hide FirstDown, LeadsOn, Artifact;
    var chain := head + b;
    IndexOfArtifact(0);
    forall i | 1 <= i < ARTIFACTS ensures FollowsFirst(edges, chain, i) {
      IndexOfArtifact(i);
      IndexOfArtifact(i - 1);
      if i > 1 { assert FollowsFirst(edges, b, i); }
    }
  }

  /** The chain walk, by the edges: the request's entry, the first sync marker, each artifact the first
      child of the entry before it as long as there is one, and a PMRun's first deliberation. */
  lemma ChainExactly(nodes: map<Id, Node>, edges: seq<Edge<Id, Kind>>, run: string)
    ensures var chain := Chain(nodes, edges, run);
            && (Run in chain <==> Request(run) in nodes) && (Run in chain ==> chain[Run] == Request(run))
            && (Run !in chain ==> chain == map[])
            && (forall i :: 1 <= i < ARTIFACTS ==> FollowsFirst(edges, chain, i))
            && SidesWithPM(edges, chain)
            && (At(PositionSync) in chain ==> FirstSync(nodes, edges, Request(run), chain[At(PositionSync)]))
            && (Run in chain && At(PositionSync) !in chain ==>
                  forall m :: 0 <= m < |edges| ==> !LeadsToSync(nodes, edges[m], Request(run)))
  {
    if Request(run) in nodes {
      BelowFollows(edges, Request(run), 1);
      FirstMarkerIs(nodes, edges, Request(run));
      hide FirstMarker, ChildrenOf, FirstDown, FirstSync, LeadsOn, LeadsToSync, Artifact, Below, FollowsFirst, SidesWithPM;
      UnderHead(edges, Head(nodes, edges, run), Below(edges, Request(run), 1));
    }
  }

  // ----- what is written -----------------------------------------------------------------------

  /** The edge a resume writes between these nodes, without properties. */
  predicate IsLink(e: Edge<Id, Kind>, parent: Id, child: Id, kind: Kind) {
    e.parent == parent && e.child == child && e.kind == kind && e.props == map[]
  }

  /** Where each artifact hangs in the child. */
  function Hangs(child: string, s: Stage): Id {
    match s
    case PositionSync => Request(child)
    case MarketData => Request(child)
    case ScanRun => Clone(child, MarketData)
    case AnalystRun => Clone(child, ScanRun)
    case PMRun => Clone(child, AnalystRun)
    case ExecutionRun => Clone(child, PMRun)
    case MonitorRun => Clone(child, ExecutionRun)
    case Snapshot => Clone(child, MonitorRun)
  }

  /** An edge written for the clone of one artifact: below its parent, to its source, a scan to the market
      data it derives from, and to the side branch the source has. */
  ghost predicate IsWrittenFor(e: Edge<Id, Kind>, child: string, source: Id, edges: seq<Edge<Id, Kind>>, s: Stage) {
    || IsLink(e, Hangs(child, s), Clone(child, s), By(s))
    || IsLink(e, Clone(child, s), source, LinkedFrom)
    || (s == ScanRun && IsLink(e, Clone(child, ScanRun), Clone(child, MarketData), DerivedFrom))
    || (s == AnalystRun && FirstDown(edges, source, ForecastBy, e.child) && IsLink(e, Clone(child, s), e.child, ForecastBy))
    || (s == PMRun && FirstDown(edges, source, DeliberatedBy, e.child) && IsLink(e, Clone(child, s), e.child, DeliberatedBy))
  }

  lemma HangsIs(child: string, s: Stage)
    ensures ParentOf(child, s) == Hangs(child, s)
  {
  }

  lemma ArtifactEdgesExactly(child: string, source: Id, edges: seq<Edge<Id, Kind>>, s: Stage, e: Edge<Id, Kind>)
    ensures e in ArtifactEdges(child, source, s, SideOf(edges, source, s)) <==> IsWrittenFor(e, child, source, edges, s)
  {
    HangsIs(child, s);
    FirstChildIs(edges, source, ForecastBy);
    FirstChildIs(edges, source, DeliberatedBy);
    hide FirstChild, FirstDown, LeadsOn, Hangs, ParentOf;
    var side := SideEdges(Clone(child, s), s, SideOf(edges, source, s));
    assert e in side <==>
           || (s == AnalystRun && FirstDown(edges, source, ForecastBy, e.child) && IsLink(e, Clone(child, s), e.child, ForecastBy))
           || (s == PMRun && FirstDown(edges, source, DeliberatedBy, e.child) && IsLink(e, Clone(child, s), e.child, DeliberatedBy));
    hide SideEdges, SideOf;
    assert e in CloneEdges(child, source, s) <==>
           || IsLink(e, Hangs(child, s), Clone(child, s), By(s))
           || IsLink(e, Clone(child, s), source, LinkedFrom)
           || (s == ScanRun && IsLink(e, Clone(child, ScanRun), Clone(child, MarketData), DerivedFrom));
  }

  /** The edges a placed child gets, and no others: one to the source's request, and those of its clones. */
  lemma {:induction false} ChildEdgesExactly(child: string, chain: map<ChainKey, Id>, edges: seq<Edge<Id, Kind>>, k: nat,
                                             e: Edge<Id, Kind>)
    requires k <= ARTIFACTS && Run in chain && HasAll(chain, k)
    ensures e in ChildEdges(child, chain, edges, k) <==>
            || IsLink(e, Request(child), chain[Run], Resumes)
            || exists i :: 0 <= i < k && IsWrittenFor(e, child, chain[At(Artifact(i))], edges, Artifact(i))
  {
    hide IsWrittenFor, ArtifactEdges, SideOf, Artifact;
    if k > 0 {
      ChildEdgesExactly(child, chain, edges, k - 1, e);
      var s := Artifact(k - 1);
      ArtifactEdgesExactly(child, chain[At(s)], edges, s, e);
    }
  }

  /** The run whose context the market data names: its `run_id` as text. */
  predicate NamesRun(market: Props, render: Value -> string, run: string) {
    if "run_id" !in market then run == ""
    else market["run_id"] == Text(run) || (!market["run_id"].Text? && run == render(market["run_id"]))
  }

  /** The context a placement clones is the one stored for the run its market data names, if there is one. */
  lemma ContextExactly(nodes: map<Id, Node>, chain: map<ChainKey, Id>, k: nat, render: Value -> string, run: string)
    requires k <= ARTIFACTS && HasAll(chain, k) && InStore(chain, nodes)
    ensures k < 2 ==> Context(nodes, chain, k, render) == None
    ensures k >= 2 ==> At(MarketData) in chain
    ensures k >= 2 && NamesRun(nodes[chain[At(MarketData)]].props, render, run) ==>
      Context(nodes, chain, k, render) == if Regime(run) in nodes then Some(Regime(run)) else None
  {
    assert Artifact(1) == MarketData;
  }

  /** The context's link is written exactly when there is a context and no such link yet. */
  lemma ContextEdgesExactly(edges: seq<Edge<Id, Kind>>, child: string, context: Option<Id>, e: Edge<Id, Kind>)
    ensures e in ContextEdges(child, Added(edges, child, context)) <==>
            && context.Some? && IsLink(e, Regime(child), context.value, LinkedFrom)
            && forall m :: 0 <= m < |edges| ==>
                 !(edges[m].parent == Regime(child) && edges[m].child == context.value && edges[m].kind == LinkedFrom)
  {
  }

  /** A PMRun cannot be cloned exactly when it has no order set with a provenance, both dicts. */
  lemma NoOrdersExactly(nodes: map<Id, Node>, chain: map<ChainKey, Id>, child: string)
    requires At(PMRun) in chain && chain[At(PMRun)] in nodes
    ensures var p := nodes[chain[At(PMRun)]].props;
            NoOrders(nodes, chain, child) <==>
              !(&& "order_intent_set" in p && p["order_intent_set"].DictV?
                && "provenance" in p["order_intent_set"].entries && p["order_intent_set"].entries["provenance"].DictV?)
  {
    assert |"linked_from_key"| == 15 && |"resume_run_id"| == 13 && |"order_intent_set"| == 16;
    assert |"run_id"| == 6 && |"provenance"| == 10;
    hide KeyOf;
  }
}
