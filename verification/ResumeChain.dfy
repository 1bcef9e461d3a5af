/** What placing a child run means for the chain walk: no existing run's view changes, the child's
    view is exactly the source's required artifacts, and a repeated call reads them back. */
module ResumeChain {
  import opened Options
  import opened Props
  import opened Traversal
  import opened GraphStore
  import opened Resume

  // ----- existing runs -------------------------------------------------------------------------

  /** Downstream of stored nodes nothing changes when every added edge the traversal follows leaves from a
      new node or leads back to where it leaves. */
  lemma {:induction false} LevelsUnchanged(nodes: set<Id>, edges: seq<Edge<Id, Kind>>, more: seq<Edge<Id, Kind>>,
                                           v: View<Kind>, frontier: seq<Id>, seen: set<Id>, depth: nat)
    requires Closed(edges, nodes) && v.downstream && (forall x :: x in frontier ==> x in nodes && x in seen)
    requires forall e :: e in more ==> e.parent !in nodes || !Allowed(e, v) || e.child == e.parent
    ensures Levels(edges + more, v, frontier, seen, depth) == Levels(edges, v, frontier, seen, depth)
    decreases depth
  {
    if depth > 0 && frontier != [] {
      LevelUnaffected(edges, more, v, Set(frontier), seen);
      var next := Level(edges, v, Set(frontier), seen);
      LevelIs(edges, v, Set(frontier), seen);
      LevelsUnchanged(nodes, edges, more, v, next, seen + Set(next), depth - 1);
    }
  }

  /** The traversal does not follow source links, or the child's regime context was not stored. */
  predicate SourceLinksUnread(v: View<Kind>, before: map<Id, Node>, child: string) {
    Regime(child) !in before || (v.filter.Kinds? && LinkedFrom !in v.filter.kinds)
  }

  lemma DescendantsUnchanged(before: map<Id, Node>, edges: seq<Edge<Id, Kind>>, after: map<Id, Node>,
                             edgesAfter: seq<Edge<Id, Kind>>, child: string, v: View<Kind>, x: Id, depth: int)
    requires Closed(edges, before.Keys) && Extends(before, edges, after, edgesAfter, child)
    requires x in before && v.downstream && SourceLinksUnread(v, before, child)
    ensures Walk(edgesAfter, v, x, depth) == Walk(edges, v, x, depth)
  {
    var more := edgesAfter[|edges|..];
    assert edgesAfter == edges + more;
    if depth >= 1 { LevelsUnchanged(before.Keys, edges, more, v, [x], {x}, depth); }
  }

  /** The context's new source link brings its source into view, one step down that link. */
  lemma ContextLinkShows(edges: seq<Edge<Id, Kind>>, edgesAfter: seq<Edge<Id, Kind>>, child: string, context: Id)
    requires NoLink(edges, Regime(child), context, LinkedFrom) && context != Regime(child)
    requires Link(Regime(child), context, LinkedFrom) in edgesAfter
    ensures context !in ChildrenOf(edges, Regime(child), LinkedFrom)
    ensures context in ChildrenOf(edgesAfter, Regime(child), LinkedFrom)
  {
    var v, x := View(Kinds({LinkedFrom}), true), Regime(child);
    WalkOfOne(edges, v, x);
    LevelIs(edges, v, {x}, {x});
    WalkOfOne(edgesAfter, v, x);
    LevelIs(edgesAfter, v, {x}, {x});
    var i :| 0 <= i < |edgesAfter| && edgesAfter[i] == Link(x, context, LinkedFrom);
    assert Allowed(edgesAfter[i], v) && Source(edgesAfter[i], v) == x && Target(edgesAfter[i], v) == context;
    assert Step(edgesAfter, v, x, context);
  }

  /** What lies downstream of every stored node, at every depth and for every edge filter, is what it was. */
  ghost predicate DownstreamUnchanged(before: map<Id, Node>, edges: seq<Edge<Id, Kind>>, edgesAfter: seq<Edge<Id, Kind>>) {
    forall v: View<Kind>, x, depth: int :: v.downstream && x in before ==>
      Walk(edgesAfter, v, x, depth) == Walk(edges, v, x, depth)
  }

  /** Added edges that leave no stored node, or only lead back to where they leave, change nothing downstream. */
  lemma NewOrSelfUnchanged(before: map<Id, Node>, edges: seq<Edge<Id, Kind>>, more: seq<Edge<Id, Kind>>)
    requires Closed(edges, before.Keys) && forall e :: e in more ==> e.parent !in before || e.child == e.parent
    ensures DownstreamUnchanged(before, edges, edges + more)
  {
    hide Closed, Levels;
    forall v: View<Kind>, x, depth: int | v.downstream && x in before
      ensures Walk(edges + more, v, x, depth) == Walk(edges, v, x, depth)
    {
      if depth >= 1 { LevelsUnchanged(before.Keys, edges, more, v, [x], {x}, depth); }
    }
  }

  /** A placement leaves all that is downstream of stored nodes as it was, except exactly when it links
      a regime context stored for the child beforehand to another context it was not linked to. */
  lemma DownstreamUnchangedExactly(before: map<Id, Node>, edges: seq<Edge<Id, Kind>>, after: map<Id, Node>,
                                   edgesAfter: seq<Edge<Id, Kind>>, source: string, stage: Stage, render: Value -> string)
    requires Closed(edges, before.Keys) && IsPlaced(before, edges, after, edgesAfter, source, stage, render)
    ensures var child, chain := ChildRun(source, stage), Chain(before, edges, source);
            var context := Added(edges, child, Context(before, chain, Index(stage), render));
            DownstreamUnchanged(before, edges, edgesAfter) <==>
            Regime(child) !in before || context.None? || context == Some(Regime(child))
  {
    var child, chain, k := ChildRun(source, stage), Chain(before, edges, source), Index(stage);
    var context := Added(edges, child, Context(before, chain, k, render));
    hide Chain, ChildRun, Context, Cloned, InStore, HasAll, Closed;
    PlacedEdges(before, edges, child, chain, k, context);
    hide Added, ChildEdges, ContextEdges, DownstreamUnchanged, NoLink;
    if Regime(child) !in before || context.None? || context == Some(Regime(child)) {
      NewOrSelfUnchanged(before, edges, ChildEdges(child, chain, edges, k) + ContextEdges(child, context));
    } else {
      AddedIsNew(edges, child, Context(before, chain, k, render));
      ContextLinkChanges(before, edges, edgesAfter, child, context.value);
    }
  }

  /** A placed child's edges leave from new nodes, but for its regime context's link. */
  lemma PlacedEdges(before: map<Id, Node>, edges: seq<Edge<Id, Kind>>, child: string, chain: map<ChainKey, Id>, k: nat,
                    context: Option<Id>)
    requires k <= ARTIFACTS && Run in chain && HasAll(chain, k)
    requires Request(child) !in before && forall s :: Clone(child, s) !in before
    ensures var links, more := ChildEdges(child, chain, edges, k), ContextEdges(child, context);
            && (edges + links) + more == edges + (links + more)
            && (context.Some? ==> Link(Regime(child), context.value, LinkedFrom) in (edges + links) + more)
            && forall e :: e in links + more ==>
                 e.parent !in before || (context.Some? && e == Link(Regime(child), context.value, LinkedFrom))
  {
    hide HasAll;
    ParentsAreNew(before, edges, child, chain, k);
    hide ChildEdges;
    var links, more := ChildEdges(child, chain, edges, k), ContextEdges(child, context);
    Associates(edges, links, more);
    if context.Some? { assert more[0] == Link(Regime(child), context.value, LinkedFrom); }
  }

  lemma AddedIsNew(edges: seq<Edge<Id, Kind>>, child: string, context: Option<Id>)
    requires Added(edges, child, context).Some?
    ensures NoLink(edges, Regime(child), Added(edges, child, context).value, LinkedFrom)
  {
  }

  lemma ContextLinkChanges(before: map<Id, Node>, edges: seq<Edge<Id, Kind>>, edgesAfter: seq<Edge<Id, Kind>>,
                           child: string, context: Id)
    requires NoLink(edges, Regime(child), context, LinkedFrom) && context != Regime(child) && Regime(child) in before
    requires Link(Regime(child), context, LinkedFrom) in edgesAfter
    ensures !DownstreamUnchanged(before, edges, edgesAfter)
  {
    ContextLinkShows(edges, edgesAfter, child, context);
    hide Walk, NoLink;
    var v := View(Kinds({LinkedFrom}), true);
    assert Walk(edgesAfter, v, Regime(child), 1) != Walk(edges, v, Regime(child), 1);
  }

  lemma FirstUnchanged(before: map<Id, Node>, edges: seq<Edge<Id, Kind>>, after: map<Id, Node>,
                       edgesAfter: seq<Edge<Id, Kind>>, child: string, x: Id, kind: Kind)
    requires Closed(edges, before.Keys) && Extends(before, edges, after, edgesAfter, child) && x in before && kind != LinkedFrom
    ensures FirstChild(edgesAfter, x, kind) == FirstChild(edges, x, kind)
    ensures FirstChild(edges, x, kind).Some? ==> FirstChild(edges, x, kind).value in before
  {
    DescendantsUnchanged(before, edges, after, edgesAfter, child, View(Kinds({kind}), true), x, 1);
    ChildIsStored(before, edges, x, kind);
  }

  lemma {:induction false} BelowUnchanged(before: map<Id, Node>, edges: seq<Edge<Id, Kind>>, after: map<Id, Node>,
                                          edgesAfter: seq<Edge<Id, Kind>>, child: string, current: Id, i: nat)
    requires Closed(edges, before.Keys) && Extends(before, edges, after, edgesAfter, child)
    requires current in before && 1 <= i <= ARTIFACTS
    ensures Below(edgesAfter, current, i) == Below(edges, current, i)
    decreases ARTIFACTS - i
  {
    hide FirstChild, Extends, Artifact, Closed;
    if i < ARTIFACTS {
      FirstUnchanged(before, edges, after, edgesAfter, child, current, By(Artifact(i)));
      var next := FirstChild(edges, current, By(Artifact(i)));
      if next.Some? {
        FirstUnchanged(before, edges, after, edgesAfter, child, next.value, DeliberatedBy);
        BelowUnchanged(before, edges, after, edgesAfter, child, next.value, i + 1);
      }
    }
  }

  lemma {:induction false} MarkerUnchanged(before: map<Id, Node>, after: map<Id, Node>, found: seq<Id>)
    requires forall x :: x in found ==> (IsSyncMarker(after, x) <==> IsSyncMarker(before, x))
    ensures FirstMarker(after, found) == FirstMarker(before, found)
  {
    hide IsSyncMarker;
    if found != [] {
      assert found[0] in found;
      MarkerUnchanged(before, after, found[1..]);
    }
  }

  /** Whatever a resume does, finished, refused or stopped half-way, the chain of every run placed
      before it reads as it did. */
  lemma ExistingRunsUnchanged(before: map<Id, Node>, edges: seq<Edge<Id, Kind>>, after: map<Id, Node>,
                              edgesAfter: seq<Edge<Id, Kind>>, child: string, run: string)
    requires Closed(edges, before.Keys) && Extends(before, edges, after, edgesAfter, child) && Request(run) in before
    ensures Chain(after, edgesAfter, run) == Chain(before, edges, run)
  {
    var v, found := View(Kinds({By(PositionSync)}), true), ChildrenOf(edges, Request(run), By(PositionSync));
    DescendantsUnchanged(before, edges, after, edgesAfter, child, v, Request(run), 1);
    BelowUnchanged(before, edges, after, edgesAfter, child, Request(run), 1);
    WalkOfOne(edges, v, Request(run));
    LevelIs(edges, v, {Request(run)}, {Request(run)});
    assert forall x :: x in found ==> x in before;
    hide Below, Walk, FirstMarker, Closed, ChildrenOf;
    MarkerUnchanged(before, after, found);
  }

  // ----- the child's edges ---------------------------------------------------------------------

  /** What a placed child's edges are, kind by kind. */
  lemma {:induction false} ByEdges(child: string, chain: map<ChainKey, Id>, edges: seq<Edge<Id, Kind>>, k: nat, s: Stage)
    requires k <= ARTIFACTS && Run in chain && HasAll(chain, k)
    ensures forall e :: e in ChildEdges(child, chain, edges, k) && e.kind == By(s) ==>
                          e == Link(ParentOf(child, s), Clone(child, s), By(s))
    ensures Link(ParentOf(child, s), Clone(child, s), By(s)) in ChildEdges(child, chain, edges, k) <==> Index(s) < k
  {
    hide SideOf, ParentOf, ArtifactEdges;
    if k > 0 {
      ByEdges(child, chain, edges, k - 1, s);
      var t := Artifact(k - 1);
      assert Index(t) == k - 1;
      assert Index(s) == k - 1 ==> s == t;
      ArtifactByEdge(child, chain[At(t)], t, SideOf(edges, chain[At(t)], t), s);
    }
  }

  lemma ArtifactByEdge(child: string, source: Id, t: Stage, side: Option<Id>, s: Stage)
    ensures var links := ArtifactEdges(child, source, t, side);
            && (forall e :: e in links && e.kind == By(s) ==> s == t && e == Link(ParentOf(child, t), Clone(child, t), By(t)))
            && Link(ParentOf(child, t), Clone(child, t), By(t)) in links
            && (forall e :: e in links && e.kind == LinkedFrom ==> e == Link(Clone(child, t), source, LinkedFrom))
            && Link(Clone(child, t), source, LinkedFrom) in links
            && (forall e :: e in links && e.kind == DeliberatedBy && e.parent == Clone(child, PMRun) ==>
                  t == PMRun && side.Some? && e == Link(Clone(child, PMRun), side.value, DeliberatedBy))
            && (t == PMRun && side.Some? ==> Link(Clone(child, PMRun), side.value, DeliberatedBy) in links)
            && (forall e :: e in links && e.kind == Resumes ==> false)
  {
    hide ParentOf;
    var links := ArtifactEdges(child, source, t, side);
    assert links[0] == Link(ParentOf(child, t), Clone(child, t), By(t)) && links[1] == Link(Clone(child, t), source, LinkedFrom);
    if side.Some? { assert links[|links| - 1] == Link(Clone(child, t), side.value, SideKind(t)); }
  }

  lemma {:induction false} LinkedFromEdges(child: string, chain: map<ChainKey, Id>, edges: seq<Edge<Id, Kind>>, k: nat, s: Stage)
    requires k <= ARTIFACTS && Run in chain && HasAll(chain, k) && Index(s) < k && At(s) in chain
    ensures Link(Clone(child, s), chain[At(s)], LinkedFrom) in ChildEdges(child, chain, edges, k)
    ensures forall e :: e in ChildEdges(child, chain, edges, k) && e.kind == LinkedFrom && e.parent == Clone(child, s) ==>
                          e.child == chain[At(s)]
  {
    hide SideOf, ParentOf, ArtifactEdges;
    var t := Artifact(k - 1);
    assert Index(t) == k - 1 && Artifact(Index(s)) == s;
    ArtifactByEdge(child, chain[At(t)], t, SideOf(edges, chain[At(t)], t), t);
    hide Artifact, Index;
    if s == t {
      NoLinkedFromYet(child, chain, edges, k - 1, s);
    } else {
      LinkedFromEdges(child, chain, edges, k - 1, s);
    }
  }

  lemma {:induction false} NoLinkedFromYet(child: string, chain: map<ChainKey, Id>, edges: seq<Edge<Id, Kind>>, k: nat, s: Stage)
    requires k <= Index(s) && Run in chain && HasAll(chain, k)
    ensures forall e :: e in ChildEdges(child, chain, edges, k) && e.parent == Clone(child, s) ==> e.kind != LinkedFrom && e.kind != DeliberatedBy
  {
    hide ArtifactEdges, SideOf, Artifact, Index, ParentOf, FirstChild;
    if k > 0 {
      var t := Artifact(k - 1);
      IndexOfArtifact(k - 1);
      NoLinkedFromYet(child, chain, edges, k - 1, s);
      ArtifactFrom(child, chain[At(t)], t, SideOf(edges, chain[At(t)], t), s);
    }
  }

  lemma ArtifactFrom(child: string, source: Id, t: Stage, side: Option<Id>, s: Stage)
    requires s != t
    ensures forall e :: e in ArtifactEdges(child, source, t, side) && e.parent == Clone(child, s) ==> e.kind.By?
  {
    hide ParentOf;
    var clone := Clone(child, t);
    assert forall e :: e in CloneEdges(child, source, t) ==> e.kind.By? || e.parent == clone;
    assert forall e :: e in SideEdges(clone, t, side) ==> e.parent == clone;
  }

  /** A child's PMRun clone is deliberated by what deliberated its source. */
  lemma {:induction false} DeliberatedEdges(child: string, chain: map<ChainKey, Id>, edges: seq<Edge<Id, Kind>>, k: nat)
    requires 4 < k <= ARTIFACTS && Run in chain && HasAll(chain, k) && At(PMRun) in chain
    ensures var side, links := FirstChild(edges, chain[At(PMRun)], DeliberatedBy), ChildEdges(child, chain, edges, k);
            && (side.Some? ==> Link(Clone(child, PMRun), side.value, DeliberatedBy) in links)
            && (forall e :: e in links && e.kind == DeliberatedBy && e.parent == Clone(child, PMRun) ==>
                  side.Some? && e.child == side.value)
  {
    hide FirstChild, ArtifactEdges, ParentOf;
    var t := Artifact(k - 1);
    var last := ArtifactEdges(child, chain[At(t)], t, SideOf(edges, chain[At(t)], t));
    assert Index(t) == k - 1 && Index(PMRun) == 4;
    assert k == 5 ==> t == PMRun && SideOf(edges, chain[At(t)], t) == FirstChild(edges, chain[At(PMRun)], DeliberatedBy);
    assert ChildEdges(child, chain, edges, k) == ChildEdges(child, chain, edges, k - 1) + last;
    hide Artifact, SideOf, ChildEdges;
    if k == 5 {
      ArtifactByEdge(child, chain[At(t)], t, SideOf(edges, chain[At(t)], t), t);
      NoLinkedFromYet(child, chain, edges, 4, PMRun);
    } else {
      ArtifactFrom(child, chain[At(t)], t, SideOf(edges, chain[At(t)], t), PMRun);
      DeliberatedEdges(child, chain, edges, k - 1);
    }
  }

  /** The first child of `x` when all its edges of that kind lead to one other node. */
  lemma OnlyChild(edges: seq<Edge<Id, Kind>>, x: Id, kind: Kind, y: Id)
    requires x != y && (forall e :: e in edges && e.parent == x && e.kind == kind ==> e.child == y)
    requires exists e :: e in edges && e.parent == x && e.kind == kind
    ensures FirstChild(edges, x, kind) == Some(y) && ChildrenOf(edges, x, kind) == [y]
  {
    var v := View(Kinds({kind}), true);
    WalkOfOne(edges, v, x);
    LevelIs(edges, v, {x}, {x});
    var found := ChildrenOf(edges, x, kind);
    var e :| e in edges && e.parent == x && e.kind == kind;
    var i :| 0 <= i < |edges| && edges[i] == e;
    assert Allowed(edges[i], v) && Source(edges[i], v) == x && Target(edges[i], v) == y;
    assert Step(edges, v, x, y);
    assert y in found;
    forall z | z in found ensures z == y { assert Step(edges, v, x, z); }
    hide ChildrenOf, Step;
    AllSame(found, y);
    assert found == [y];
  }

  lemma AllSame<X>(s: seq<X>, y: X)
    requires forall z :: z in s ==> z == y
    ensures |s| > 1 ==> s[0] == s[1]
  {
    if |s| > 1 { assert s[0] in s && s[1] in s; }
  }

  lemma NoChild(edges: seq<Edge<Id, Kind>>, x: Id, kind: Kind)
    requires forall e :: e in edges ==> e.parent != x || e.kind != kind
    ensures FirstChild(edges, x, kind) == None && ChildrenOf(edges, x, kind) == []
  {
    var none: seq<Edge<Id, Kind>> := [];
    var v := View(Kinds({kind}), true);
    WalkOfOne(edges, v, x);
    forall e | e in edges ensures Source(e, v) !in {x} || !Allowed(e, v) { assert e.parent != x || e.kind != kind; }
    LevelUnaffected(none, edges, v, {x}, {x});
    assert none + edges == edges;
    assert Level(edges, v, {x}, {x}) == [];
  }

  // ----- the child's chain ---------------------------------------------------------------------

  /** All edges after a placement, with nothing said about how they came about. */
  ghost function AllEdges(edges: seq<Edge<Id, Kind>>, child: string, chain: map<ChainKey, Id>, k: nat, context: Option<Id>): seq<Edge<Id, Kind>>
    requires k <= ARTIFACTS && Run in chain && HasAll(chain, k)
  {
    edges + ChildEdges(child, chain, edges, k) + ContextEdges(child, context)
  }

  /** A placed child node's next artifact. */
  lemma NextArtifact(nodes: set<Id>, edges: seq<Edge<Id, Kind>>, child: string, chain: map<ChainKey, Id>, k: nat,
                     context: Option<Id>, x: Id, s: Stage)
    requires k <= ARTIFACTS && Run in chain && HasAll(chain, k) && Closed(edges, nodes) && x !in nodes
    ensures var all, next := AllEdges(edges, child, chain, k, context), By(s);
            if Index(s) < k && x == ParentOf(child, s)
            then FirstChild(all, x, next) == Some(Clone(child, s)) && ChildrenOf(all, x, next) == [Clone(child, s)]
            else FirstChild(all, x, next) == None && ChildrenOf(all, x, next) == []
  {
    ByEdges(child, chain, edges, k, s);
    var all := AllEdges(edges, child, chain, k, context);
    assert forall e :: e in edges ==> e.parent != x;
    assert ParentOf(child, s) != Clone(child, s);
    hide ParentOf, ChildEdges, FirstChild, ChildrenOf;
    assert forall e :: e in all && e.parent == x && e.kind == By(s) ==> e in ChildEdges(child, chain, edges, k);
    if Index(s) < k && x == ParentOf(child, s) {
      assert Link(x, Clone(child, s), By(s)) in all;
      OnlyChild(all, x, By(s), Clone(child, s));
    } else {
      NoChild(all, x, By(s));
    }
  }

  lemma SourceOfClone(nodes: set<Id>, edges: seq<Edge<Id, Kind>>, child: string, chain: map<ChainKey, Id>, k: nat,
                      context: Option<Id>, s: Stage)
    requires k <= ARTIFACTS && Run in chain && HasAll(chain, k) && Closed(edges, nodes)
    requires Clone(child, s) !in nodes && Index(s) < k && At(s) in chain && chain[At(s)] in nodes
    ensures FirstChild(AllEdges(edges, child, chain, k, context), Clone(child, s), LinkedFrom) == Some(chain[At(s)])
  {
    LinkedFromEdges(child, chain, edges, k, s);
    var all, x := AllEdges(edges, child, chain, k, context), Clone(child, s);
    assert forall e :: e in edges ==> e.parent != x;
    hide ChildEdges, FirstChild;
    assert Link(x, chain[At(s)], LinkedFrom) in all;
    OnlyChild(all, x, LinkedFrom, chain[At(s)]);
  }

  /** An edge that leaves a new clone is one of the child's. */
  lemma FromNewClone(nodes: map<Id, Node>, edges: seq<Edge<Id, Kind>>, child: string, chain: map<ChainKey, Id>, k: nat,
                     context: Option<Id>, x: Id)
    requires k <= ARTIFACTS && Run in chain && HasAll(chain, k) && Closed(edges, nodes.Keys) && x !in nodes && x.Clone?
    ensures forall e :: e in AllEdges(edges, child, chain, k, context) && e.parent == x ==> e in ChildEdges(child, chain, edges, k)
    ensures forall e :: e in ChildEdges(child, chain, edges, k) ==> e in AllEdges(edges, child, chain, k, context)
  {
    hide ChildEdges;
  }

  lemma DeliberationOfClone(nodes: map<Id, Node>, edges: seq<Edge<Id, Kind>>, child: string, chain: map<ChainKey, Id>, k: nat,
                            context: Option<Id>)
    requires 4 < k <= ARTIFACTS && Run in chain && HasAll(chain, k) && At(PMRun) in chain && Closed(edges, nodes.Keys)
    requires Clone(child, PMRun) !in nodes
    ensures FirstChild(AllEdges(edges, child, chain, k, context), Clone(child, PMRun), DeliberatedBy)
         == FirstChild(edges, chain[At(PMRun)], DeliberatedBy)
    ensures |ChildrenOf(AllEdges(edges, child, chain, k, context), Clone(child, PMRun), DeliberatedBy)| <= 1
  {
    DeliberatedEdges(child, chain, edges, k);
    ChildIsStored(nodes, edges, chain[At(PMRun)], DeliberatedBy);
    var all, x := AllEdges(edges, child, chain, k, context), Clone(child, PMRun);
    FromNewClone(nodes, edges, child, chain, k, context, x);
    hide ChildEdges, FirstChild, Closed, HasAll, AllEdges;
    var side := FirstChild(edges, chain[At(PMRun)], DeliberatedBy);
    if side.Some? {
      assert Link(x, side.value, DeliberatedBy) in all;
      OnlyChild(all, x, DeliberatedBy, side.value);
    } else {
      NoChild(all, x, DeliberatedBy);
    }
  }

  /** The artifacts `i` to `k - 1` of the child, as the chain walk reports them. */
  function Spine(child: string, chain: map<ChainKey, Id>, i: nat, k: nat): map<ChainKey, Id>
    requires i <= k <= ARTIFACTS
    decreases k - i
  {
    if i == k then map[]
    else Entry(child, chain, i) + Spine(child, chain, i + 1, k)
  }

  function Entry(child: string, chain: map<ChainKey, Id>, i: nat): map<ChainKey, Id>
    requires i < ARTIFACTS
  {
    if Artifact(i) == PMRun && Deliberation in chain
    then map[At(PMRun) := Clone(child, PMRun), Deliberation := chain[Deliberation]]
    else map[At(Artifact(i)) := Clone(child, Artifact(i))]
  }

  /** In a walked chain a PMRun has its deliberation beside it. */
  lemma {:induction false} BelowDeliberation(edges: seq<Edge<Id, Kind>>, current: Id, i: nat)
    requires 1 <= i <= ARTIFACTS
    ensures var b := Below(edges, current, i);
            && (At(PMRun) in b ==> FirstChild(edges, b[At(PMRun)], DeliberatedBy)
                                   == if Deliberation in b then Some(b[Deliberation]) else None)
            && (i > 4 ==> At(PMRun) !in b && Deliberation !in b)
            && At(PositionSync) !in b && Run !in b
    decreases ARTIFACTS - i
  {
    hide FirstChild, Artifact, Found;
    if i < ARTIFACTS && FirstChild(edges, current, By(Artifact(i))).Some? {
      var next := FirstChild(edges, current, By(Artifact(i))).value;
      FoundDeliberation(edges, next, i);
      BelowDeliberation(edges, next, i + 1);
    }
  }

  lemma FoundDeliberation(edges: seq<Edge<Id, Kind>>, x: Id, i: nat)
    requires 1 <= i < ARTIFACTS
    ensures var b := Found(edges, x, i);
            && (At(PMRun) in b <==> i == 4)
            && (At(PMRun) in b ==> FirstChild(edges, b[At(PMRun)], DeliberatedBy)
                                   == if Deliberation in b then Some(b[Deliberation]) else None)
            && (Deliberation in b ==> i == 4)
            && At(PositionSync) !in b && Run !in b
  {
    hide FirstChild;
    IndexOfArtifact(i);
  }

  lemma {:induction false} SpineHolds(child: string, chain: map<ChainKey, Id>, i: nat, k: nat)
    requires i <= k <= ARTIFACTS
    ensures var c := Spine(child, chain, i, k);
            && (forall s :: At(s) in c <==> i <= Index(s) < k)
            && (forall s :: At(s) in c ==> c[At(s)] == Clone(child, s))
            && (Deliberation in c <==> i <= Index(PMRun) < k && Deliberation in chain)
            && (Deliberation in c ==> c[Deliberation] == chain[Deliberation])
            && Run !in c
    decreases k - i
  {
    hide Artifact, Entry, Index;
    if i < k {
      SpineHolds(child, chain, i + 1, k);
      EntryHolds(child, chain, i);
    }
  }

  lemma EntryHolds(child: string, chain: map<ChainKey, Id>, i: nat)
    requires i < ARTIFACTS
    ensures var c := Entry(child, chain, i);
            && (forall s :: At(s) in c <==> Index(s) == i)
            && (forall s :: At(s) in c ==> c[At(s)] == Clone(child, s))
            && (Deliberation in c <==> Index(PMRun) == i && Deliberation in chain)
            && (Deliberation in c ==> c[Deliberation] == chain[Deliberation])
            && Run !in c
  {
  }

  lemma ChainDeliberation(nodes: map<Id, Node>, edges: seq<Edge<Id, Kind>>, run: string)
    requires Request(run) in nodes
    ensures var chain := Chain(nodes, edges, run);
            && (At(PMRun) in chain ==> FirstChild(edges, chain[At(PMRun)], DeliberatedBy)
                                       == if Deliberation in chain then Some(chain[Deliberation]) else None)
            && (At(PositionSync) in chain ==> IsSyncMarker(nodes, chain[At(PositionSync)]))
  {
    BelowDeliberation(edges, Request(run), 1);
    MarkerIsMarker(nodes, ChildrenOf(edges, Request(run), By(PositionSync)));
    hide FirstChild, ChildrenOf, Below, FirstMarker, IsSyncMarker;
  }

  lemma {:induction false} MarkerIsMarker(nodes: map<Id, Node>, found: seq<Id>)
    ensures FirstMarker(nodes, found).Some? ==> IsSyncMarker(nodes, FirstMarker(nodes, found).value)
  {
    if found != [] { MarkerIsMarker(nodes, found[1..]); }
  }

  /** What the child's edges were built from. */
  ghost predicate Built(nodes: map<Id, Node>, edges: seq<Edge<Id, Kind>>, child: string, chain: map<ChainKey, Id>, k: nat)
    requires k <= ARTIFACTS
  {
    && Run in chain && HasAll(chain, k) && InStore(chain, nodes) && Closed(edges, nodes.Keys)
    && Request(child) !in nodes && (forall s :: Clone(child, s) !in nodes)
    && (At(PMRun) in chain ==> FirstChild(edges, chain[At(PMRun)], DeliberatedBy)
                               == if Deliberation in chain then Some(chain[Deliberation]) else None)
  }

  lemma FoundIsEntry(nodes: map<Id, Node>, edges: seq<Edge<Id, Kind>>, child: string, chain: map<ChainKey, Id>, k: nat,
                     context: Option<Id>, i: nat)
    requires i < k <= ARTIFACTS && Built(nodes, edges, child, chain, k)
    ensures Found(AllEdges(edges, child, chain, k, context), Clone(child, Artifact(i)), i) == Entry(child, chain, i)
  {
    IndexOfArtifact(i);
    assert Index(PMRun) == 4;
    hide FirstChild, AllEdges, Closed, Artifact, Index;
    if Artifact(i) == PMRun { DeliberationOfClone(nodes, edges, child, chain, k, context); }
  }

  lemma {:induction false} BelowIsSpine(nodes: map<Id, Node>, edges: seq<Edge<Id, Kind>>, child: string,
                                        chain: map<ChainKey, Id>, k: nat, context: Option<Id>, x: Id, i: nat)
    requires 1 <= i <= ARTIFACTS && k <= ARTIFACTS && Built(nodes, edges, child, chain, k)
    requires x !in nodes && (i < ARTIFACTS ==> x == ParentOf(child, Artifact(i)))
    ensures Below(AllEdges(edges, child, chain, k, context), x, i) == if i < k then Spine(child, chain, i, k) else map[]
    decreases ARTIFACTS - i
  {
    hide FirstChild, AllEdges, Closed, Found, Entry;
    if i < ARTIFACTS {
      NextArtifact(nodes.Keys, edges, child, chain, k, context, x, Artifact(i));
      assert Index(Artifact(i)) == i;
      if i < k {
        FoundIsEntry(nodes, edges, child, chain, k, context, i);
        assert i + 1 < ARTIFACTS ==> ParentOf(child, Artifact(i + 1)) == Clone(child, Artifact(i)) by {
          assert i + 1 < ARTIFACTS ==> Index(Artifact(i + 1)) == i + 1;
        }
        hide ParentOf, Artifact;
        BelowIsSpine(nodes, edges, child, chain, k, context, Clone(child, Artifact(i)), i + 1);
      }
    }
  }

  /** The clone of a sync marker is one. */
  lemma SyncMarkerCloned(before: map<Id, Node>, after: map<Id, Node>, child: string, chain: map<ChainKey, Id>, k: nat)
    requires 0 < k <= ARTIFACTS && HasAll(chain, k) && InStore(chain, before) && Cloned(before, after, child, chain, k)
    requires At(PositionSync) in chain && IsSyncMarker(before, chain[At(PositionSync)])
    ensures IsSyncMarker(after, Clone(child, PositionSync))
  {
    assert Artifact(0) == PositionSync;
    var source := chain[At(Artifact(0))];
    var props := LinkedProps(Artifact(0), child, source, before[source].props).value;
    assert |"phase"| == 5 && |"linked_from_key"| == 15 && |"resume_run_id"| == 13 && |"source_run_id"| == 13;
    assert props["phase"] == Text("sync");
    assert FreezeProps(props)["phase"] == Text("sync");
  }

  lemma HeadOfChild(before: map<Id, Node>, edges: seq<Edge<Id, Kind>>, after: map<Id, Node>, child: string,
                    chain: map<ChainKey, Id>, k: nat, context: Option<Id>)
    requires k <= ARTIFACTS && Built(before, edges, child, chain, k) && Cloned(before, after, child, chain, k)
    requires At(PositionSync) in chain ==> IsSyncMarker(before, chain[At(PositionSync)])
    ensures Head(after, AllEdges(edges, child, chain, k, context), child)
         == if k == 0 then map[Run := Request(child)] else map[Run := Request(child), At(PositionSync) := Clone(child, PositionSync)]
  {
    assert Artifact(0) == PositionSync && Index(PositionSync) == 0;
    if k > 0 { SyncMarkerCloned(before, after, child, chain, k); }
    hide FirstChild, AllEdges, Closed, IsSyncMarker, Cloned;
    NextArtifact(before.Keys, edges, child, chain, k, context, Request(child), PositionSync);
  }

  /** A chain holding the child's request, its clones of the first `k` artifacts, and the source's
      deliberation when a PMRun is among them; nothing else. */
  ghost predicate SeesPrefix(seen: map<ChainKey, Id>, child: string, chain: map<ChainKey, Id>, k: nat) {
    && Run in seen && seen[Run] == Request(child)
    && (forall s :: At(s) in seen <==> Index(s) < k)
    && (forall s :: At(s) in seen ==> seen[At(s)] == Clone(child, s))
    && (Deliberation in seen <==> Index(PMRun) < k && Deliberation in chain)
    && (Deliberation in seen ==> seen[Deliberation] == chain[Deliberation])
  }

  /** After a placement the chain walk of the child returns its request, exactly the artifacts the
      stage requires, each the child's own clone, and the source's deliberation exactly when the
      PMRun was cloned and had one. */
  lemma ChildSeesExactlyThePrefix(before: map<Id, Node>, edges: seq<Edge<Id, Kind>>, after: map<Id, Node>,
                                  edgesAfter: seq<Edge<Id, Kind>>, source: string, stage: Stage, render: Value -> string)
    requires Closed(edges, before.Keys) && IsPlaced(before, edges, after, edgesAfter, source, stage, render)
    ensures var chain, child := Chain(before, edges, source), ChildRun(source, stage);
            SeesPrefix(Chain(after, edgesAfter, child), child, chain, Index(stage))
  {
    var chain, child, k := Chain(before, edges, source), ChildRun(source, stage), Index(stage);
    var context := Added(edges, child, Context(before, chain, k, render));
    ChainDeliberation(before, edges, source);
    assert edgesAfter == AllEdges(edges, child, chain, k, context);
    hide FirstChild, AllEdges, Closed, IsSyncMarker, Cloned, ChildRun, Context, Below, Added;
    assert Built(before, edges, child, chain, k);
    HeadOfChild(before, edges, after, child, chain, k, context);
    BelowIsSpine(before, edges, child, chain, k, context, Request(child), 1);
    HeadAndSpine(child, chain, k);
  }

  lemma HeadAndSpine(child: string, chain: map<ChainKey, Id>, k: nat)
    requires k <= ARTIFACTS
    ensures var seen := (if k == 0 then map[Run := Request(child)]
                         else map[Run := Request(child), At(PositionSync) := Clone(child, PositionSync)])
                        + (if 1 < k then Spine(child, chain, 1, k) else map[]);
            SeesPrefix(seen, child, chain, k)
  {
    if 1 < k { SpineHolds(child, chain, 1, k); }
    assert forall s :: Index(s) == 0 <==> s == PositionSync;
    hide Spine;
  }

  // ----- a repeated call -----------------------------------------------------------------------

  /** The clones a level finds below `frontier`, in artifact order. */
  function Hung(child: string, frontier: set<Id>, seen: set<Id>, k: nat): seq<Id>
    requires k <= ARTIFACTS
  {
    if k == 0 then []
    else
      var clone := Clone(child, Artifact(k - 1));
      Hung(child, frontier, seen, k - 1)
      + if ParentOf(child, Artifact(k - 1)) in frontier && clone !in seen then [clone] else []
  }

  function TreeView(): View<Kind> { View(Kinds(ArtifactKinds()), true) }

  /** One breadth-first level among the child's nodes. */
  lemma {:induction false} LevelIsHung(nodes: map<Id, Node>, edges: seq<Edge<Id, Kind>>, child: string,
                                       chain: map<ChainKey, Id>, k: nat, frontier: set<Id>, seen: set<Id>)
    requires k <= ARTIFACTS && Run in chain && HasAll(chain, k) && Closed(edges, nodes.Keys) && frontier !! nodes.Keys
    ensures Level(edges + ChildEdges(child, chain, edges, k), TreeView(), frontier, seen) == Hung(child, frontier, seen, k)
  {
    if k == 0 {
      NothingHangsYet(nodes, edges, child, chain, frontier, seen);
    } else {
      hide *;
      OneMoreArtifact(edges, child, chain, k);
      var t, most := Artifact(k - 1), ChildEdges(child, chain, edges, k - 1);
      var side := SideOf(edges, chain[At(t)], t);
      LevelIsHung(nodes, edges, child, chain, k - 1, frontier, seen);
      NextHangs(edges + most, child, chain[At(t)], side, frontier, seen, k);
      Associates(edges, most, ArtifactEdges(child, chain[At(t)], t, side));
    }
  }

  lemma OneMoreArtifact(edges: seq<Edge<Id, Kind>>, child: string, chain: map<ChainKey, Id>, k: nat)
    requires 0 < k <= ARTIFACTS && Run in chain && HasAll(chain, k)
    ensures HasAll(chain, k - 1) && At(Artifact(k - 1)) in chain
    ensures var t := Artifact(k - 1);
            ChildEdges(child, chain, edges, k)
            == ChildEdges(child, chain, edges, k - 1) + ArtifactEdges(child, chain[At(t)], t, SideOf(edges, chain[At(t)], t))
  {
    hide SideOf, ArtifactEdges, Artifact;
  }

  /** Linking one more artifact adds what hangs by it. */
  lemma NextHangs(edges: seq<Edge<Id, Kind>>, child: string, source: Id, side: Option<Id>, frontier: set<Id>, seen: set<Id>,
                  k: nat)
    requires 0 < k <= ARTIFACTS && Level(edges, TreeView(), frontier, seen) == Hung(child, frontier, seen, k - 1)
    ensures Level(edges + ArtifactEdges(child, source, Artifact(k - 1), side), TreeView(), frontier, seen)
         == Hung(child, frontier, seen, k)
  {
    IndexOfArtifact(k - 1);
    NotHungYet(child, frontier, seen, k - 1, Artifact(k - 1));
    hide ArtifactEdges, ParentOf, TreeView, Artifact, Level;
    ArtifactLevel(edges, child, source, Artifact(k - 1), side, frontier, seen);
  }

  lemma NothingHangsYet(nodes: map<Id, Node>, edges: seq<Edge<Id, Kind>>, child: string,
                        chain: map<ChainKey, Id>, frontier: set<Id>, seen: set<Id>)
    requires Run in chain && Closed(edges, nodes.Keys) && frontier !! nodes.Keys
    ensures Level(edges + ChildEdges(child, chain, edges, 0), TreeView(), frontier, seen) == []
  {
    LevelUnaffected([], edges, TreeView(), frontier, seen);
    assert [] + edges == edges;
    LevelUnaffected(edges, ChildEdges(child, chain, edges, 0), TreeView(), frontier, seen);
  }

  lemma {:induction false} NotHungYet(child: string, frontier: set<Id>, seen: set<Id>, k: nat, s: Stage)
    requires k <= Index(s)
    ensures Clone(child, s) !in Hung(child, frontier, seen, k)
  {
    if k > 0 {
      NotHungYet(child, frontier, seen, k - 1, s);
      assert Index(Artifact(k - 1)) == k - 1;
    }
  }

  /** An artifact's edges add its clone to a level, if anything. */
  lemma ArtifactLevel(edges: seq<Edge<Id, Kind>>, child: string, source: Id, s: Stage, side: Option<Id>,
                      frontier: set<Id>, seen: set<Id>)
    requires Clone(child, s) !in Level(edges, TreeView(), frontier, seen)
    ensures Level(edges + ArtifactEdges(child, source, s, side), TreeView(), frontier, seen)
         == Level(edges, TreeView(), frontier, seen)
            + if ParentOf(child, s) in frontier && Clone(child, s) !in seen then [Clone(child, s)] else []
  {
    var links, v := ArtifactEdges(child, source, s, side), TreeView();
    assert links[0] == Link(ParentOf(child, s), Clone(child, s), By(s));
    assert forall e :: e in links[1..] ==> e.kind == LinkedFrom || e.kind == DerivedFrom || e.kind == SideKind(s);
    assert v.filter.Kinds? && v.downstream && By(s) in v.filter.kinds;
    assert LinkedFrom !in v.filter.kinds && DerivedFrom !in v.filter.kinds && SideKind(s) !in v.filter.kinds;
    hide ArtifactEdges, ParentOf, TreeView, SideKind;
    FirstOnlyLevel(edges, links, v, frontier, seen);
  }

  lemma FirstOnlyLevel<N, T>(edges: seq<Edge<N, T>>, links: seq<Edge<N, T>>, v: View<T>, frontier: set<N>, seen: set<N>)
    requires links != [] && Allowed(links[0], v) && forall e :: e in links[1..] ==> !Allowed(e, v)
    requires Target(links[0], v) !in Level(edges, v, frontier, seen)
    ensures Level(edges + links, v, frontier, seen)
         == Level(edges, v, frontier, seen)
            + if Source(links[0], v) in frontier && Target(links[0], v) !in seen then [Target(links[0], v)] else []
  {
    assert edges + links == (edges + [links[0]]) + links[1..];
    LevelUnaffected(edges + [links[0]], links[1..], v, frontier, seen);
    assert (edges + [links[0]])[..|edges|] == edges;
  }

  /** The child's clones of artifacts `i` to `j - 1`. */
  function Clones(child: string, i: nat, j: nat): seq<Id>
    requires j <= ARTIFACTS
  {
    if j <= i then [] else Clones(child, i, j - 1) + [Clone(child, Artifact(j - 1))]
  }

  function Least(a: nat, b: nat): nat { if a < b then a else b }

  /** Exactly the artifacts `i` to `j - 1` hang below the frontier and are not yet seen. */
  ghost predicate HangsBelow(child: string, frontier: set<Id>, seen: set<Id>, k: nat, i: nat, j: nat)
    requires k <= ARTIFACTS
  {
    forall m :: 0 <= m < k ==>
      ((ParentOf(child, Artifact(m)) in frontier && Clone(child, Artifact(m)) !in seen) <==> i <= m < j)
  }

  lemma {:induction false} HungIsRange(child: string, frontier: set<Id>, seen: set<Id>, k: nat, i: nat, j: nat)
    requires k <= ARTIFACTS && HangsBelow(child, frontier, seen, k, i, j)
    ensures Hung(child, frontier, seen, k) == Clones(child, i, Least(j, k))
  {
    hide ParentOf, Artifact;
    if k > 0 { HungIsRange(child, frontier, seen, k - 1, i, j); }
  }

  lemma NextLevel(nodes: map<Id, Node>, edges: seq<Edge<Id, Kind>>, child: string, chain: map<ChainKey, Id>, k: nat,
                  context: Option<Id>, frontier: set<Id>, seen: set<Id>, i: nat, j: nat)
    requires k <= ARTIFACTS && Run in chain && HasAll(chain, k) && Closed(edges, nodes.Keys) && frontier !! nodes.Keys
    requires HangsBelow(child, frontier, seen, k, i, j)
    ensures Level(AllEdges(edges, child, chain, k, context), TreeView(), frontier, seen) == Clones(child, i, Least(j, k))
  {
    LevelIsHung(nodes, edges, child, chain, k, frontier, seen);
    HungIsRange(child, frontier, seen, k, i, j);
    assert LinkedFrom !in ArtifactKinds();
    LevelUnaffected(edges + ChildEdges(child, chain, edges, k), ContextEdges(child, context), TreeView(), frontier, seen);
  }

  /** From the level before artifact `i` on, every level holds one clone. */
  lemma {:induction false} TreeTail(nodes: map<Id, Node>, edges: seq<Edge<Id, Kind>>, child: string,
                                    chain: map<ChainKey, Id>, k: nat, context: Option<Id>, frontier: seq<Id>,
                                    seen: set<Id>, i: nat, depth: nat)
    requires 2 <= i <= k <= ARTIFACTS && Built(nodes, edges, child, chain, k) && frontier != [] && depth >= k - i
    requires Set(frontier) !! nodes.Keys && HangsBelow(child, Set(frontier), seen, k, i, i + 1)
    requires forall j :: i <= j < k ==> Clone(child, Artifact(j)) !in seen
    ensures Levels(AllEdges(edges, child, chain, k, context), TreeView(), frontier, seen, depth) == Clones(child, i, k)
    decreases depth
  {
    hide *;
    BuiltParts(nodes, edges, child, chain, k);
    NextLevel(nodes, edges, child, chain, k, context, Set(frontier), seen, i, i + 1);
    if i == k {
      TreeEnds(AllEdges(edges, child, chain, k, context), child, k, frontier, seen, depth);
    } else {
      var next := [Clone(child, Artifact(i))];
      OneClone(child, i, k);
      LevelsFrom(AllEdges(edges, child, chain, k, context), TreeView(), frontier, seen, depth);
      OnlyNextHangs(child, seen, k, i);
      SetOfOne(Clone(child, Artifact(i)));
      TreeTail(nodes, edges, child, chain, k, context, next, seen + Set(next), i + 1, depth - 1);
      ClonesFrom(child, i, k);
    }
  }

  lemma TreeEnds(all: seq<Edge<Id, Kind>>, child: string, k: nat, frontier: seq<Id>, seen: set<Id>, depth: nat)
    requires k <= ARTIFACTS && Level(all, TreeView(), Set(frontier), seen) == Clones(child, k, Least(k + 1, k))
    ensures Levels(all, TreeView(), frontier, seen, depth) == Clones(child, k, k) == []
  {
    hide TreeView, Level;
    var none: seq<Id> := [];
    assert depth > 0 ==> Levels(all, TreeView(), none, seen + Set(none), depth - 1) == [];
  }

  lemma BuiltParts(nodes: map<Id, Node>, edges: seq<Edge<Id, Kind>>, child: string, chain: map<ChainKey, Id>, k: nat)
    requires k <= ARTIFACTS && Built(nodes, edges, child, chain, k)
    ensures Run in chain && HasAll(chain, k) && Closed(edges, nodes.Keys)
    ensures forall s :: Clone(child, s) !in nodes
  {
  }

  lemma OneClone(child: string, i: nat, k: nat)
    requires i < k <= ARTIFACTS
    ensures Clones(child, i, Least(i + 1, k)) == [Clone(child, Artifact(i))]
  {
    assert Clones(child, i, i) == [];
  }

  lemma LevelsFrom<N, T>(edges: seq<Edge<N, T>>, v: View<T>, frontier: seq<N>, seen: set<N>, depth: nat)
    requires depth > 0 && frontier != []
    ensures var next := Level(edges, v, Set(frontier), seen);
            Levels(edges, v, frontier, seen, depth) == next + Levels(edges, v, next, seen + Set(next), depth - 1)
  {
  }

  lemma SetOfOne<X>(x: X)
    ensures Set([x]) == {x}
  {
  }

  lemma OnlyNextHangs(child: string, seen: set<Id>, k: nat, i: nat)
    requires 1 <= i < k <= ARTIFACTS && forall j :: i <= j < k ==> Clone(child, Artifact(j)) !in seen
    ensures var c := Clone(child, Artifact(i));
            && HangsBelow(child, {c}, seen + {c}, k, i + 1, i + 2)
            && forall j :: i < j < k ==> Clone(child, Artifact(j)) !in seen + {c}
  {
    var c := Clone(child, Artifact(i));
    hide ParentOf, Artifact;
    forall m | 0 <= m < k
      ensures (ParentOf(child, Artifact(m)) in {c} && Clone(child, Artifact(m)) !in seen + {c}) <==> i + 1 <= m < i + 2
      ensures i < m ==> Clone(child, Artifact(m)) !in seen + {c}
    {
      ParentIsPrevious(child, m, i);
    }
  }

  lemma ParentIsPrevious(child: string, m: nat, i: nat)
    requires m < ARTIFACTS && 1 <= i < ARTIFACTS
    ensures ParentOf(child, Artifact(m)) == Clone(child, Artifact(i)) <==> m == i + 1
    ensures Artifact(m) == Artifact(i) <==> m == i
  {
    assert Index(Artifact(m)) == m && Index(Artifact(i)) == i;
    if m >= 2 { assert Index(Artifact(m - 1)) == m - 1; }
  }

  lemma {:induction false} ClonesFrom(child: string, i: nat, k: nat)
    requires i < k <= ARTIFACTS
    ensures [Clone(child, Artifact(i))] + Clones(child, i + 1, k) == Clones(child, i, k)
  {
    if i + 1 < k { ClonesFrom(child, i, k - 1); }
  }

  lemma RootHangs(child: string, k: nat)
    requires k <= ARTIFACTS
    ensures HangsBelow(child, {Request(child)}, {Request(child)}, k, 0, 2)
  {
    assert forall m :: 0 <= m < k ==> Index(Artifact(m)) == m;
    hide Artifact;
  }

  /** Below the two clones under the request hangs the scan. */
  lemma PairHangs(child: string, k: nat)
    requires 2 <= k <= ARTIFACTS
    ensures var pair := {Clone(child, Artifact(0)), Clone(child, Artifact(1))};
            && HangsBelow(child, pair, {Request(child)} + pair, k, 2, 3)
            && forall j :: 2 <= j < k ==> Clone(child, Artifact(j)) !in {Request(child)} + pair
  {
    var pair := {Clone(child, Artifact(0)), Clone(child, Artifact(1))};
    forall m | 0 <= m < k
      ensures (ParentOf(child, Artifact(m)) in pair && Clone(child, Artifact(m)) !in {Request(child)} + pair) <==> 2 <= m < 3
      ensures 2 <= m ==> Clone(child, Artifact(m)) !in {Request(child)} + pair
    {
      ParentIsPrevious(child, m, 1);
      assert Index(Artifact(m)) == m && Index(Artifact(0)) == 0;
      if m >= 2 { assert Index(Artifact(m - 1)) == m - 1; }
    }
  }

  /** The breadth-first walk from a placed child finds its clones, in artifact order. */
  lemma TreeIsClones(nodes: map<Id, Node>, edges: seq<Edge<Id, Kind>>, child: string, chain: map<ChainKey, Id>, k: nat,
                     context: Option<Id>)
    requires k <= ARTIFACTS && Built(nodes, edges, child, chain, k)
    ensures CloneTree(AllEdges(edges, child, chain, k, context), child) == Clones(child, 0, k)
  {
    var all, root := AllEdges(edges, child, chain, k, context), Request(child);
    var next := Clones(child, 0, Least(2, k));
    SetOfOne(root);
    RootHangs(child, k);
    NextLevel(nodes, edges, child, chain, k, context, {root}, {root}, 0, 2);
    assert CloneTree(all, child) == next + Levels(all, TreeView(), next, {root} + Set(next), 7);
    if k >= 2 {
      FirstClones(child);
      PairHangs(child, k);
      hide AllEdges, TreeView, ParentOf, Artifact, FirstChild, HangsBelow, Closed, Levels, Clones, CloneTree, Set;
      TreeTail(nodes, edges, child, chain, k, context, next, {root} + Set(next), 2, 7);
      ClonesJoin(child, 2, k);
    } else {
      SmallTree(nodes, edges, child, chain, k, context, next, {root} + Set(next));
    }
  }

  lemma FirstClones(child: string)
    ensures Clones(child, 0, 2) == [Clone(child, Artifact(0)), Clone(child, Artifact(1))]
    ensures Set(Clones(child, 0, 2)) == {Clone(child, Artifact(0)), Clone(child, Artifact(1))}
  {
    assert Clones(child, 0, 1) == [Clone(child, Artifact(0))];
  }

  lemma {:induction false} ClonesJoin(child: string, i: nat, k: nat)
    requires i <= k <= ARTIFACTS
    ensures Clones(child, 0, i) + Clones(child, i, k) == Clones(child, 0, k)
  {
    if i < k {
      ClonesJoin(child, i, k - 1);
      hide Artifact;
      Associates(Clones(child, 0, i), Clones(child, i, k - 1), [Clone(child, Artifact(k - 1))]);
    }
  }

  /** With at most the position sync linked there is no second level. */
  lemma SmallTree(nodes: map<Id, Node>, edges: seq<Edge<Id, Kind>>, child: string, chain: map<ChainKey, Id>, k: nat,
                  context: Option<Id>, frontier: seq<Id>, seen: set<Id>)
    requires k <= 1 && Built(nodes, edges, child, chain, k) && frontier == Clones(child, 0, k)
    ensures Levels(AllEdges(edges, child, chain, k, context), TreeView(), frontier, seen, 7) == []
  {
    if k == 1 {
      assert Index(Artifact(0)) == 0;
      assert frontier == [Clone(child, Artifact(0))];
      SetOfOne(Clone(child, Artifact(0)));
      assert HangsBelow(child, Set(frontier), seen, k, 1, 1);
      NextLevel(nodes, edges, child, chain, k, context, Set(frontier), seen, 1, 1);
    }
  }

  lemma {:induction false} SourcesAreRefs(nodes: map<Id, Node>, edges: seq<Edge<Id, Kind>>, child: string,
                                          chain: map<ChainKey, Id>, k: nat, context: Option<Id>, i: nat)
    requires i <= k <= ARTIFACTS && Built(nodes, edges, child, chain, k)
    ensures SourcesOf(AllEdges(edges, child, chain, k, context), Clones(child, 0, i)) == Refs(chain, i)
  {
    hide AllEdges, Artifact, FirstChild, Closed, ChildEdges;
    if i > 0 {
      assert Index(Artifact(i - 1)) == i - 1 by { IndexOfArtifact(i - 1); }
      SourceOfClone(nodes.Keys, edges, child, chain, k, context, Artifact(i - 1));
      SourcesAreRefs(nodes, edges, child, chain, k, context, i - 1);
      hide Built;
      SourcesGrow(AllEdges(edges, child, chain, k, context), child, chain, i);
    }
  }

  lemma SourcesGrow(all: seq<Edge<Id, Kind>>, child: string, chain: map<ChainKey, Id>, i: nat)
    requires 0 < i <= ARTIFACTS && HasAll(chain, i) && SourcesOf(all, Clones(child, 0, i - 1)) == Refs(chain, i - 1)
    requires FirstChild(all, Clone(child, Artifact(i - 1)), LinkedFrom) == Some(chain[At(Artifact(i - 1))])
    ensures SourcesOf(all, Clones(child, 0, i)) == Refs(chain, i)
  {
    hide Artifact, FirstChild;
    var clones, last := Clones(child, 0, i), Clone(child, Artifact(i - 1));
    assert clones == Clones(child, 0, i - 1) + [last];
    assert clones[..|clones| - 1] == Clones(child, 0, i - 1) && clones[|clones| - 1] == last;
    assert Refs(chain, i) == Refs(chain, i - 1) + [chain[At(Artifact(i - 1))]];
  }

  /** A repeated call finds the child placed and the source's chain unchanged, and reads back, in the
      same order, the references the first call returned, all but the regime context's. */
  lemma RepeatReadsTheSameRefs(before: map<Id, Node>, edges: seq<Edge<Id, Kind>>, after: map<Id, Node>,
                               edgesAfter: seq<Edge<Id, Kind>>, source: string, stage: Stage, render: Value -> string)
    requires Closed(edges, before.Keys) && IsPlaced(before, edges, after, edgesAfter, source, stage, render)
    requires Extends(before, edges, after, edgesAfter, ChildRun(source, stage))
    ensures var chain, child := Chain(before, edges, source), ChildRun(source, stage);
            && Request(child) in after && Chain(after, edgesAfter, source) == chain
            && SourcesOf(edgesAfter, CloneTree(edgesAfter, child)) == Refs(chain, Index(stage))
  {
    var chain, child, k := Chain(before, edges, source), ChildRun(source, stage), Index(stage);
    var context := Added(edges, child, Context(before, chain, k, render));
    ExistingRunsUnchanged(before, edges, after, edgesAfter, child, source);
    ChainDeliberation(before, edges, source);
    assert edgesAfter == AllEdges(edges, child, chain, k, context);
    hide FirstChild, AllEdges, Closed, IsSyncMarker, Cloned, ChildRun, Context, Below, Chain, Added;
    assert Built(before, edges, child, chain, k);
    TreeIsClones(before, edges, child, chain, k, context);
    SourcesAreRefs(before, edges, child, chain, k, context, k);
  }

  /** The properties a clone of an artifact gets of its own. */
  function Rewritten(s: Stage): set<string> {
    {"linked_from_key", "resume_run_id"}
    + match s
      case PositionSync => {"source_run_id"}
      case MarketData => {"run_id"}
      case PMRun => {"order_intent_set"}
      case ExecutionRun => {"source_pm_run_id"}
      case MonitorRun => {"source_run_id", "exec_run_id"}
      case _ => {}
  }

  /** A clone is its source under a new key: it has the source's properties and its own, and every property
      that is not its own is the source's. */
  lemma CloneCarriesProps(before: map<Id, Node>, after: map<Id, Node>, child: string, chain: map<ChainKey, Id>, k: nat,
                          s: Stage)
    requires k <= ARTIFACTS && HasAll(chain, k) && InStore(chain, before) && Cloned(before, after, child, chain, k)
    requires Index(s) < k && At(s) in chain
    ensures Clone(child, s) in after
    ensures var p, q := before[chain[At(s)]].props, after[Clone(child, s)].props;
            && q.Keys == p.Keys + Rewritten(s)
            && forall name :: name in p && name !in Rewritten(s) ==> q[name] == Freeze(p[name])
  {
    CloneIs(before, after, child, chain, k, s);
    LinkedCarries(s, child, chain[At(s)], before[chain[At(s)]].props);
    hide Freeze, KeyOf, LinkedProps, Rewritten;
  }

  lemma CloneIs(before: map<Id, Node>, after: map<Id, Node>, child: string, chain: map<ChainKey, Id>, k: nat, s: Stage)
    requires k <= ARTIFACTS && HasAll(chain, k) && InStore(chain, before) && Cloned(before, after, child, chain, k)
    requires Index(s) < k && At(s) in chain
    ensures Clone(child, s) in after && LinkedProps(s, child, chain[At(s)], before[chain[At(s)]].props).Some?
    ensures after[Clone(child, s)].props == FreezeProps(LinkedProps(s, child, chain[At(s)], before[chain[At(s)]].props).value)
  {
    hide LinkedProps, FreezeProps;
    assert Artifact(Index(s)) == s;
    assert CloneOf(before, after, child, chain[At(Artifact(Index(s)))], Artifact(Index(s)));
  }

  lemma LinkedCarries(s: Stage, child: string, source: Id, p: Props)
    requires LinkedProps(s, child, source, p).Some?
    ensures var q := LinkedProps(s, child, source, p).value;
            q.Keys == p.Keys + Rewritten(s) && forall name :: name in p && name !in Rewritten(s) ==> q[name] == p[name]
  {
    hide KeyOf;
  }

  /** What a clone's own properties are: where it was linked from and for which run, and the runs it and
      its order set name, which are the child's own. */
  lemma CloneNamesTheChild(before: map<Id, Node>, after: map<Id, Node>, child: string, chain: map<ChainKey, Id>, k: nat,
                           s: Stage)
    requires k <= ARTIFACTS && HasAll(chain, k) && InStore(chain, before) && Cloned(before, after, child, chain, k)
    requires Index(s) < k && At(s) in chain
    ensures Clone(child, s) in after && Rewritten(s) <= after[Clone(child, s)].props.Keys
    ensures var q := after[Clone(child, s)].props;
            && q["linked_from_key"] == Text(KeyOf(chain[At(s)])) && q["resume_run_id"] == Text(child)
            && (s == PositionSync ==> q["source_run_id"] == Text(child))
            && (s == MarketData ==> q["run_id"] == Text(child))
            && (s == ExecutionRun ==> q["source_pm_run_id"] == Text(KeyOf(Clone(child, PMRun))))
            && (s == MonitorRun ==> q["source_run_id"] == Text(KeyOf(Clone(child, PMRun)))
                                    && q["exec_run_id"] == Text(KeyOf(Clone(child, ExecutionRun))))
  {
    CloneIs(before, after, child, chain, k, s);
    LinkedNames(s, child, chain[At(s)], before[chain[At(s)]].props);
    LinkedCarries(s, child, chain[At(s)], before[chain[At(s)]].props);
    hide KeyOf, LinkedProps;
  }

  lemma LinkedNames(s: Stage, child: string, source: Id, p: Props)
    requires LinkedProps(s, child, source, p).Some?
    ensures Rewritten(s) <= LinkedProps(s, child, source, p).value.Keys
    ensures var q := LinkedProps(s, child, source, p).value;
            && q["linked_from_key"] == Text(KeyOf(source)) && q["resume_run_id"] == Text(child)
            && (s == PositionSync ==> q["source_run_id"] == Text(child))
            && (s == MarketData ==> q["run_id"] == Text(child))
            && (s == ExecutionRun ==> q["source_pm_run_id"] == Text(KeyOf(Clone(child, PMRun))))
            && (s == MonitorRun ==> q["source_run_id"] == Text(KeyOf(Clone(child, PMRun)))
                                    && q["exec_run_id"] == Text(KeyOf(Clone(child, ExecutionRun))))
  {
    hide KeyOf;
    assert |"linked_from_key"| == 15 && |"resume_run_id"| == |"source_run_id"| == 13 && |"run_id"| == 6
        && |"order_intent_set"| == |"source_pm_run_id"| == 16 && |"exec_run_id"| == 11;
    assert "resume_run_id"[0] != "source_run_id"[0];
  }

  /** A clone of the PMRun names itself as the run of its order set and of the set's provenance; all else in
      them is the source's. */
  lemma OrderSetNamesTheClone(before: map<Id, Node>, after: map<Id, Node>, child: string, chain: map<ChainKey, Id>, k: nat)
    requires k <= ARTIFACTS && HasAll(chain, k) && InStore(chain, before) && Cloned(before, after, child, chain, k)
    requires Index(PMRun) < k && At(PMRun) in chain
    ensures Clone(child, PMRun) in after && "order_intent_set" in after[Clone(child, PMRun)].props
    ensures "order_intent_set" in before[chain[At(PMRun)]].props
    ensures var source := before[chain[At(PMRun)]].props["order_intent_set"];
            var clone := after[Clone(child, PMRun)].props["order_intent_set"];
            && source.DictV? && clone.DictV? && Renamed(source.entries, clone.entries, KeyOf(Clone(child, PMRun)))
  {
    CloneIs(before, after, child, chain, k, PMRun);
    var p := before[chain[At(PMRun)]].props;
    var linked := WithText(WithText(p, "linked_from_key", KeyOf(chain[At(PMRun)])), "resume_run_id", child);
    assert |"linked_from_key"| == 15 && |"resume_run_id"| == 13 && |"order_intent_set"| == 16;
    assert LinkedProps(PMRun, child, chain[At(PMRun)], p) == OrderSetOf(linked, KeyOf(Clone(child, PMRun)));
    OrderSetRenamed(linked, KeyOf(Clone(child, PMRun)));
    hide KeyOf, OrderSetOf, LinkedProps, Freeze;
  }

  /** `clone` is `source` with its run, its provenance's run and the provenance's node named after `key`. */
  ghost predicate Renamed(source: Props, clone: Props, key: string) {
    && clone.Keys == source.Keys + {"run_id"} && "provenance" in source && source["provenance"].DictV?
    && clone["run_id"] == Text(key) && clone["provenance"].DictV?
    && (forall name :: name in source && name !in {"run_id", "provenance"} ==> clone[name] == Freeze(source[name]))
    && var was, named := source["provenance"].entries, clone["provenance"].entries;
       IsNamed(was, named, key)
  }

  ghost predicate IsNamed(was: Props, named: Props, key: string) {
    && named.Keys == was.Keys + {"run_id", "graph_node_id"}
    && named["run_id"] == Text(key) && named["graph_node_id"] == Text("PMRun:" + key)
    && forall name :: name in was && name !in {"run_id", "graph_node_id"} ==> named[name] == Freeze(was[name])
  }

  lemma ProvenanceNamed(was: Props, key: string)
    ensures var named := Freeze(DictV(WithText(WithText(was, "run_id", key), "graph_node_id", "PMRun:" + key)));
            named.DictV? && IsNamed(was, named.entries, key)
  {
    assert |"run_id"| == 6 && |"graph_node_id"| == 13;
    var named := WithText(WithText(was, "run_id", key), "graph_node_id", "PMRun:" + key);
    assert Freeze(Text(key)) == Text(key) && Freeze(Text("PMRun:" + key)) == Text("PMRun:" + key);
    assert forall name :: name in was && name !in {"run_id", "graph_node_id"} ==> named[name] == was[name];
  }

  lemma OrderSetRenamed(p: Props, key: string)
    requires OrderSetOf(p, key).Some?
    ensures "order_intent_set" in p && p["order_intent_set"].DictV? && "order_intent_set" in OrderSetOf(p, key).value
    ensures var clone := Freeze(OrderSetOf(p, key).value["order_intent_set"]);
            clone.DictV? && Renamed(p["order_intent_set"].entries, clone.entries, key)
  {
    assert |"run_id"| == 6 && |"provenance"| == 10;
    var source := p["order_intent_set"].entries;
    var orders := WithText(source, "run_id", key);
    assert orders["provenance"] == source["provenance"];
    var provenance := WithText(WithText(source["provenance"].entries, "run_id", key), "graph_node_id", "PMRun:" + key);
    assert OrderSetOf(p, key).value["order_intent_set"] == DictV(orders["provenance" := DictV(provenance)]);
    assert Freeze(Text(key)) == Text(key);
    ProvenanceNamed(source["provenance"].entries, key);
    hide IsNamed, WithText;
  }
}
