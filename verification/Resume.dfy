/** Resuming a run from a stage (`orchestration/resume.py`, `orchestration/resume_plan.py`,
    `orchestration/batch_chain.py`): a child run is placed whose upstream artifacts are clones linked
    to the source run's, and the chain walk that must then see exactly them. */
module Resume {
  import opened Options
  import opened Props
  import opened Traversal
  import opened GraphStore

  /** The chain keys, in artifact order; resuming from a stage means from the artifact it produces. */
  datatype Stage = PositionSync | MarketData | ScanRun | AnalystRun | PMRun | ExecutionRun | MonitorRun | Snapshot

  const ARTIFACTS := 8

  function Artifact(i: nat): Stage
    requires i < ARTIFACTS
  {
    match i
    case 0 => PositionSync
    case 1 => MarketData
    case 2 => ScanRun
    case 3 => AnalystRun
    case 4 => PMRun
    case 5 => ExecutionRun
    case 6 => MonitorRun
    case _ => Snapshot
  }

  function Index(s: Stage): (i: nat)
    ensures i < ARTIFACTS && Artifact(i) == s
  {
    match s
    case PositionSync => 0
    case MarketData => 1
    case ScanRun => 2
    case AnalystRun => 3
    case PMRun => 4
    case ExecutionRun => 5
    case MonitorRun => 6
    case Snapshot => 7
  }

  /** Node identities, one constructor per key format: `run-request:`, `resume-link:` and
      `regime-context:` keys, and every other node. */
  datatype Id = Request(run: string) | Clone(run: string, stage: Stage) | Regime(run: string) | Other(nodeLabel: string, key: string)

  /** Edge types: one per artifact, and those resume also writes or follows. */
  datatype Kind = By(stage: Stage) | Resumes | LinkedFrom | DerivedFrom | ForecastBy | DeliberatedBy | OtherKind(name: string)

  function Word(s: Stage): string {
    match s
    case PositionSync => "positionsync"
    case MarketData => "marketdata"
    case ScanRun => "scanrun"
    case AnalystRun => "analystrun"
    case PMRun => "pmrun"
    case ExecutionRun => "executionrun"
    case MonitorRun => "monitorrun"
    case Snapshot => "snapshot"
  }

  function StageName(s: Stage): string {
    match s
    case PositionSync => "position_sync"
    case MarketData => "provider"
    case ScanRun => "scanner"
    case AnalystRun => "analyst"
    case PMRun => "pm"
    case ExecutionRun => "execution"
    case MonitorRun => "monitor"
    case Snapshot => "reporter"
  }

  function ChildRun(source: string, stage: Stage): string { source + "-resume-" + StageName(stage) }

  function KeyOf(id: Id): string {
    match id
    case Request(run) => "run-request:" + run
    case Clone(run, stage) => "resume-link:" + run + ":" + Word(stage)
    case Regime(run) => "regime-context:" + run
    case Other(_, key) => key
  }

  /** A word without the separator reaches back to the last one. */
  lemma LastSeparator(a: string, w: string, sep: char, i: nat)
    requires sep !in w && i <= |a| + |w|
    ensures var t := a + [sep] + w;
            && t[..|a|] == a && t[|a| + 1..] == w
            && (i >= |a| ==> (t[i] == sep <==> i == |a|))
  {
    var t := a + [sep] + w;
    if i > |a| { assert t[i] == w[i - |a| - 1] && w[i - |a| - 1] in w; }
  }

  /** What follows the last separator, and what comes before it. */
  lemma LastPart(a: string, w: string, b: string, x: string, sep: char)
    requires a + [sep] + w == b + [sep] + x && sep !in w && sep !in x
    ensures a == b && w == x
  {
    assert |a| + |w| == |b| + |x| by { assert |a + [sep] + w| == |b + [sep] + x|; }
    LastSeparator(a, w, sep, |a|);
    LastSeparator(a, w, sep, |b|);
    LastSeparator(b, x, sep, |a|);
    LastSeparator(b, x, sep, |b|);
  }

  /** Their first two letters tell the words apart, ... */
  function StageOfWord(a: char, b: char): Stage {
    if a == 'p' then (if b == 'o' then PositionSync else PMRun)
    else if a == 'm' then (if b == 'a' then MarketData else MonitorRun)
    else if a == 's' then (if b == 'c' then ScanRun else Snapshot)
    else if a == 'a' then AnalystRun else ExecutionRun
  }

  /** ... and the stage names. */
  function StageOfName(a: char, b: char): Stage {
    if a == 'p' then (if b == 'o' then PositionSync else if b == 'r' then MarketData else PMRun)
    else if a == 's' then ScanRun else if a == 'a' then AnalystRun
    else if a == 'e' then ExecutionRun else if a == 'm' then MonitorRun else Snapshot
  }

  lemma WordTells(s: Stage)
    ensures var w := Word(s); |w| >= 2 && StageOfWord(w[0], w[1]) == s && ':' !in w
  {
  }

  lemma NameTells(s: Stage)
    ensures var w := StageName(s); |w| >= 2 && StageOfName(w[0], w[1]) == s && '-' !in w
  {
  }

  lemma KeyStarts(id: Id)
    requires !id.Other?
    ensures |KeyOf(id)| >= 12
    ensures KeyOf(id)[2] == if id.Request? then 'n' else if id.Clone? then 's' else 'g'
    ensures id.Request? ==> KeyOf(id)[12..] == id.run
    ensures id.Regime? ==> |KeyOf(id)| >= 15 && KeyOf(id)[15..] == id.run
    ensures id.Clone? ==> KeyOf(id) == "resume-link:" + id.run + [':'] + Word(id.stage)
  {
    hide Word;
  }

  /** Keys of the formats resume writes name their nodes: what is one node to the model is one key. */
  lemma KeysNameIds(a: Id, b: Id)
    requires !a.Other? && !b.Other? && KeyOf(a) == KeyOf(b)
    ensures a == b
  {
    KeyStarts(a);
    KeyStarts(b);
    hide KeyOf;
    if a.Clone? {
      WordTells(a.stage);
      WordTells(b.stage);
      hide Word, StageOfWord;
      LastPart("resume-link:" + a.run, Word(a.stage), "resume-link:" + b.run, Word(b.stage), ':');
      assert ("resume-link:" + a.run)[12..] == a.run && ("resume-link:" + b.run)[12..] == b.run;
    }
  }

  /** A child run's name tells the source and the stage. */
  lemma ChildRunNames(source: string, stage: Stage, other: string, otherStage: Stage)
    requires ChildRun(source, stage) == ChildRun(other, otherStage)
    ensures source == other && stage == otherStage
  {
    NameTells(stage);
    NameTells(otherStage);
    hide StageName, StageOfName;
    assert source + "-resume-" == source + "-resume" + ['-'] && other + "-resume-" == other + "-resume" + ['-'];
    LastPart(source + "-resume", StageName(stage), other + "-resume", StageName(otherStage), '-');
    assert (source + "-resume")[..|source|] == source && (other + "-resume")[..|other|] == other;
  }

  predicate IsMonitorRun(id: Id) {
    match id
    case Clone(_, stage) => stage == PositionSync || stage == MonitorRun
    case Other(name, _) => name == "MonitorRun"
    case _ => false
  }

  /** The clone an artifact hangs from in the child, or the child's request itself. */
  function ParentOf(child: string, s: Stage): Id {
    if Index(s) <= 1 then Request(child) else Clone(child, Artifact(Index(s) - 1))
  }

  // ----- the chain walk ------------------------------------------------------------------------

  function ChildrenOf(edges: seq<Edge<Id, Kind>>, x: Id, kind: Kind): seq<Id> {
    Walk(edges, View(Kinds({kind}), true), x, 1)
  }

  function FirstChild(edges: seq<Edge<Id, Kind>>, x: Id, kind: Kind): Option<Id> {
    var found := ChildrenOf(edges, x, kind);
    if found == [] then None else Some(found[0])
  }

  predicate IsSyncMarker(nodes: map<Id, Node>, x: Id) {
    IsMonitorRun(x) && x in nodes && HasText(nodes[x].props, "phase", "sync")
  }

  function FirstMarker(nodes: map<Id, Node>, found: seq<Id>): Option<Id> {
    if found == [] then None
    else if IsSyncMarker(nodes, found[0]) then Some(found[0])
    else FirstMarker(nodes, found[1..])
  }

  datatype ChainKey = Run | At(stage: Stage) | Deliberation

  /** The stages found below `current`, from artifact `i` on, up to the first one missing. */
  function Below(edges: seq<Edge<Id, Kind>>, current: Id, i: nat): map<ChainKey, Id>
    requires 1 <= i <= ARTIFACTS
    decreases ARTIFACTS - i
  {
    if i == ARTIFACTS then map[]
    else match FirstChild(edges, current, By(Artifact(i)))
      case None => map[]
      case Some(next) => Found(edges, next, i) + Below(edges, next, i + 1)
  }

  /** The entries one artifact adds: itself, and a PMRun's deliberation. */
  function Found(edges: seq<Edge<Id, Kind>>, x: Id, i: nat): map<ChainKey, Id>
    requires i < ARTIFACTS
  {
    if Artifact(i) == PMRun && FirstChild(edges, x, DeliberatedBy).Some?
    then map[At(PMRun) := x, Deliberation := FirstChild(edges, x, DeliberatedBy).value]
    else map[At(Artifact(i)) := x]
  }

  function Head(nodes: map<Id, Node>, edges: seq<Edge<Id, Kind>>, run: string): map<ChainKey, Id> {
    match FirstMarker(nodes, ChildrenOf(edges, Request(run), By(PositionSync)))
    case None => map[Run := Request(run)]
    case Some(marker) => map[Run := Request(run), At(PositionSync) := marker]
  }

  /** What `walk_chain` finds. */
  function Chain(nodes: map<Id, Node>, edges: seq<Edge<Id, Kind>>, run: string): map<ChainKey, Id> {
    if Request(run) !in nodes then map[]
    else Head(nodes, edges, run) + Below(edges, Request(run), 1)
  }

  /** `next(iter(graph.descendants(x, max_depth=1, edge_types={kind})), None)`. */
  method FirstFound(graph: InMemoryGraphStore<Id, Kind>, x: Id, kind: Kind) returns (r: Option<Id>)
    requires graph.Valid()
    ensures r == FirstChild(graph.edges, x, kind)
    ensures r.Some? ==> r.value in graph.nodes
  {
    var found := graph.WalkFrom(x, 1, View(Kinds({kind}), true));
    if found == [] { return None; }
    assert found[0] in found;
    return Some(found[0]);
  }

  method SyncMarker(graph: InMemoryGraphStore<Id, Kind>, run: string) returns (r: Option<Id>)
    requires graph.Valid()
    ensures r == FirstMarker(graph.nodes, ChildrenOf(graph.edges, Request(run), By(PositionSync)))
  {
    hide Walk, IsMonitorRun, HasText;
    var found := graph.WalkFrom(Request(run), 1, View(Kinds({By(PositionSync)}), true));
    for j := 0 to |found|
      invariant FirstMarker(graph.nodes, found) == FirstMarker(graph.nodes, found[j..])
    {
      if IsSyncMarker(graph.nodes, found[j]) { return Some(found[j]); }
    }
    return None;
  }

  method FoundAt(graph: InMemoryGraphStore<Id, Kind>, x: Id, i: nat) returns (found: map<ChainKey, Id>)
    requires graph.Valid() && i < ARTIFACTS
    ensures found == Found(graph.edges, x, i)
  {
    found := map[At(Artifact(i)) := x];
    if Artifact(i) == PMRun {
      var side := FirstFound(graph, x, DeliberatedBy);
      if side.Some? { found := found[Deliberation := side.value]; }
    }
  }

  lemma BelowIs(edges: seq<Edge<Id, Kind>>, current: Id, i: nat, chain: map<ChainKey, Id>)
    requires 1 <= i <= ARTIFACTS
    ensures i == ARTIFACTS || FirstChild(edges, current, By(Artifact(i))).None? ==>
      chain + Below(edges, current, i) == chain
    ensures i < ARTIFACTS && FirstChild(edges, current, By(Artifact(i))).Some? ==>
      var next := FirstChild(edges, current, By(Artifact(i))).value;
      chain + Below(edges, current, i) == (chain + Found(edges, next, i)) + Below(edges, next, i + 1)
  {
    hide FirstChild, Found;
  }

  method WalkChain(graph: InMemoryGraphStore<Id, Kind>, run: string) returns (chain: map<ChainKey, Id>)
    requires graph.Valid()
    ensures chain == Chain(graph.nodes, graph.edges, run)
  {
    hide FirstMarker, FirstChild, ChildrenOf, Found, Artifact, InMemoryGraphStore.Valid;
    if Request(run) !in graph.nodes { return map[]; }
    chain := map[Run := Request(run)];
    var marker := SyncMarker(graph, run);
    if marker.Some? { chain := map[Run := Request(run), At(PositionSync) := marker.value]; }
    assert chain == Head(graph.nodes, graph.edges, run);
    var current := Request(run);
    var i := 1;
    ghost var all := Chain(graph.nodes, graph.edges, run);
    hide Head, Chain, Below;
    while i < ARTIFACTS
      invariant 1 <= i <= ARTIFACTS
      invariant all == chain + Below(graph.edges, current, i)
    {
      var next := FirstFound(graph, current, By(Artifact(i)));
      BelowIs(graph.edges, current, i, chain);
      if next.None? { return; }
      var found := FoundAt(graph, next.value, i);
      chain := chain + found;
      current := next.value;
      i := i + 1;
    }
    BelowIs(graph.edges, current, i, chain);
  }

  // ----- placing the child ---------------------------------------------------------------------

  function WithText(p: Props, name: string, text: string): Props { p[name := Text(text)] }

  /** The PMRun clone's order set names the clone as its run; a PMRun without one raises. */
  function OrderSetOf(p: Props, key: string): Option<Props> {
    if "order_intent_set" !in p || !p["order_intent_set"].DictV? then None
    else
      var orders := WithText(p["order_intent_set"].entries, "run_id", key);
      if "provenance" !in orders || !orders["provenance"].DictV? then None
      else
        var provenance := WithText(WithText(orders["provenance"].entries, "run_id", key), "graph_node_id", "PMRun:" + key);
        Some(p["order_intent_set" := DictV(orders["provenance" := DictV(provenance)])])
  }

  function LinkedProps(s: Stage, child: string, source: Id, p: Props): Option<Props> {
    var linked := WithText(WithText(p, "linked_from_key", KeyOf(source)), "resume_run_id", child);
    match s
    case PositionSync => Some(WithText(linked, "source_run_id", child))
    case MarketData => Some(WithText(linked, "run_id", child))
    case PMRun => OrderSetOf(linked, KeyOf(Clone(child, PMRun)))
    case ExecutionRun => Some(WithText(linked, "source_pm_run_id", KeyOf(Clone(child, PMRun))))
    case MonitorRun =>
      Some(WithText(WithText(linked, "source_run_id", KeyOf(Clone(child, PMRun))),
                    "exec_run_id", KeyOf(Clone(child, ExecutionRun))))
    case _ => Some(linked)
  }

  function Link(parent: Id, child: Id, kind: Kind): Edge<Id, Kind> { Edge(parent, child, kind, map[]) }

  /** The side branch a clone shares with its source. */
  function SideOf(edges: seq<Edge<Id, Kind>>, source: Id, s: Stage): Option<Id> {
    match s
    case AnalystRun => FirstChild(edges, source, ForecastBy)
    case PMRun => FirstChild(edges, source, DeliberatedBy)
    case _ => None
  }

  function SideKind(s: Stage): Kind { if s == AnalystRun then ForecastBy else DeliberatedBy }

  function CloneEdges(child: string, source: Id, s: Stage): seq<Edge<Id, Kind>> {
    var clone := Clone(child, s);
    [Link(ParentOf(child, s), clone, By(s)), Link(clone, source, LinkedFrom)]
    + (if s == ScanRun then [Link(clone, Clone(child, MarketData), DerivedFrom)] else [])
  }

  function SideEdges(clone: Id, s: Stage, side: Option<Id>): seq<Edge<Id, Kind>> {
    if side.Some? then [Link(clone, side.value, SideKind(s))] else []
  }

  /** The edges one artifact adds. */
  function ArtifactEdges(child: string, source: Id, s: Stage, side: Option<Id>): seq<Edge<Id, Kind>> {
    CloneEdges(child, source, s) + SideEdges(Clone(child, s), s, side)
  }

  ghost predicate NoLink(edges: seq<Edge<Id, Kind>>, parent: Id, child: Id, kind: Kind) {
    forall i :: 0 <= i < |edges| ==> !(edges[i].parent == parent && edges[i].child == child && edges[i].kind == kind)
  }

  /** Edges that neither leave `x` nor have kind `kind` do not change its first child. */
  lemma FirstChildUnaffected(edges: seq<Edge<Id, Kind>>, more: seq<Edge<Id, Kind>>, x: Id, kind: Kind)
    requires forall e :: e in more ==> e.parent != x || e.kind != kind
    ensures FirstChild(edges + more, x, kind) == FirstChild(edges, x, kind)
  {
    var v := View(Kinds({kind}), true);
    LevelUnaffected(edges, more, v, {x}, {x});
    WalkOfOne(edges, v, x);
    WalkOfOne(edges + more, v, x);
  }

  lemma WalkOfOne<N(!new), T>(edges: seq<Edge<N, T>>, v: View<T>, x: N)
    ensures Walk(edges, v, x, 1) == Level(edges, v, {x}, {x})
  {
    var next := Level(edges, v, {x}, {x});
    assert Set([x]) == {x};
    assert Levels(edges, v, [x], {x}, 1) == next + Levels(edges, v, next, {x} + Set(next), 0);
  }

  /** A level is unaffected by later edges that the traversal cannot take from it. */
  lemma {:induction false} LevelUnaffected<N, T>(edges: seq<Edge<N, T>>, more: seq<Edge<N, T>>, v: View<T>,
                                                 frontier: set<N>, seen: set<N>)
    requires forall e :: e in more ==> Source(e, v) !in frontier || !Allowed(e, v) || Target(e, v) in seen
    ensures Level(edges + more, v, frontier, seen) == Level(edges, v, frontier, seen)
  {
    if more == [] {
      assert edges + more == edges;
    } else {
      var most := more[..|more| - 1];
      assert more[|more| - 1] in more;
      assert forall e :: e in most ==> e in more;
      LevelUnaffected(edges, most, v, frontier, seen);
      assert (edges + more)[..|edges + more| - 1] == edges + most;
    }
  }

  method NamesOf(p: Props) returns (names: seq<string>)
    ensures Enumerates(names, p)
  {
    names := [];
    var left := p.Keys;
    while left != {}
      invariant left <= p.Keys && NoDuplicates(names)
      invariant forall i :: 0 <= i < |names| ==> names[i] in p && names[i] !in left
      invariant forall name :: name in p && name !in left ==> name in names
      decreases left
    {
      var name :| name in left;
      left := left - {name};
      names := names + [name];
    }
    forall name | name in p ensures exists i :: 0 <= i < |names| && names[i] == name {
      assert name in names;
    }
  }

  /** An edge that is not there yet is appended. */
  method AddLink(graph: InMemoryGraphStore<Id, Kind>, parent: Id, child: Id, kind: Kind)
    requires graph.Valid() && parent in graph.nodes && child in graph.nodes && NoLink(graph.edges, parent, child, kind)
    modifies graph`edges
    ensures graph.Valid() && graph.edges == old(graph.edges) + [Link(parent, child, kind)]
  {
    assert FreezeProps(map[]) == map[];
    var r := graph.AddEdge(parent, child, kind, map[]);
  }

  /** A node that is not there yet is stored with its props frozen. */
  method AddNode(graph: InMemoryGraphStore<Id, Kind>, id: Id, props: Props)
    requires graph.Valid() && id !in graph.nodes
    modifies graph`nodes, graph`order
    ensures graph.Valid() && graph.nodes == old(graph.nodes)[id := Node(FreezeProps(props), 1)]
  {
    var names := NamesOf(props);
    var r := graph.MergeNode(id, props, names, 1);
  }

  /** `_link_side_branch`. */
  method LinkSide(graph: InMemoryGraphStore<Id, Kind>, clone: Id, source: Id, s: Stage)
    requires graph.Valid() && clone in graph.nodes
    requires forall e :: e in graph.edges ==> e.parent != clone || e.kind != SideKind(s)
    modifies graph`edges
    ensures graph.Valid()
    ensures graph.edges == old(graph.edges) + SideEdges(clone, s, SideOf(old(graph.edges), source, s))
  {
    hide FirstChild;
    if s == AnalystRun || s == PMRun {
      var side := FirstFound(graph, source, SideKind(s));
      if side.Some? { AddLink(graph, clone, side.value, SideKind(s)); }
    }
  }

  /** Linking the clone to its parent, its source and, for a scan, the market data. */
  method LinkClone(graph: InMemoryGraphStore<Id, Kind>, child: string, source: Id, s: Stage)
    requires graph.Valid() && source in graph.nodes && ParentOf(child, s) in graph.nodes && Clone(child, s) in graph.nodes
    requires s == ScanRun ==> Clone(child, MarketData) in graph.nodes
    requires forall e :: e in graph.edges ==> e.parent != Clone(child, s) && e.child != Clone(child, s)
    modifies graph`edges
    ensures graph.Valid() && graph.edges == old(graph.edges) + CloneEdges(child, source, s)
  {
    AddLink(graph, ParentOf(child, s), Clone(child, s), By(s));
    AddLink(graph, Clone(child, s), source, LinkedFrom);
    if s == ScanRun { AddLink(graph, Clone(child, s), Clone(child, MarketData), DerivedFrom); }
  }

  /** One turn of the linking loop. */
  method LinkArtifact(graph: InMemoryGraphStore<Id, Kind>, child: string, source: Id, s: Stage) returns (ok: bool)
    requires graph.Valid() && source in graph.nodes && ParentOf(child, s) in graph.nodes && Clone(child, s) !in graph.nodes
    requires s == ScanRun ==> Clone(child, MarketData) in graph.nodes
    modifies graph
    ensures graph.Valid()
    ensures ok <==> LinkedProps(s, child, source, old(graph.nodes)[source].props).Some?
    ensures ok ==> graph.nodes == old(graph.nodes)[Clone(child, s) :=
              Node(FreezeProps(LinkedProps(s, child, source, old(graph.nodes)[source].props).value), 1)]
    ensures ok ==> graph.edges == old(graph.edges) + ArtifactEdges(child, source, s, SideOf(old(graph.edges), source, s))
    ensures !ok ==> graph.nodes == old(graph.nodes) && graph.edges == old(graph.edges)
  {
    var props := LinkedProps(s, child, source, graph.nodes[source].props);
    if props.None? { return false; }
    ghost var edges0, clone := graph.edges, Clone(child, s);
    assert forall e :: e in edges0 ==> e.parent != clone && e.child != clone;
    hide InMemoryGraphStore.Valid, LinkedProps, FreezeProps, KeyOf, CloneEdges, SideEdges, SideOf, SideKind, ParentOf;
    AddNode(graph, Clone(child, s), props.value);
    LinkClone(graph, child, source, s);
    CloneKinds(child, source, s, edges0);
    SideUnaffected(edges0, CloneEdges(child, source, s), source, s);
    LinkSide(graph, Clone(child, s), source, s);
    Associates(edges0, CloneEdges(child, source, s), SideEdges(clone, s, SideOf(edges0, source, s)));
    return true;
  }

  lemma Associates<X>(a: seq<X>, b: seq<X>, c: seq<X>)
    ensures (a + b) + c == a + (b + c)
  {
  }

  lemma CloneKinds(child: string, source: Id, s: Stage, edges: seq<Edge<Id, Kind>>)
    requires forall e :: e in edges ==> e.parent != Clone(child, s)
    ensures forall e :: e in CloneEdges(child, source, s) ==> e.kind != SideKind(s)
    ensures forall e :: e in edges + CloneEdges(child, source, s) ==> e.parent != Clone(child, s) || e.kind != SideKind(s)
  {
    assert forall e :: e in CloneEdges(child, source, s) ==> e.kind in {By(s), LinkedFrom, DerivedFrom};
  }

  lemma SideUnaffected(edges: seq<Edge<Id, Kind>>, more: seq<Edge<Id, Kind>>, source: Id, s: Stage)
    requires forall e :: e in more ==> e.parent != source || e.kind != SideKind(s)
    ensures SideOf(edges + more, source, s) == SideOf(edges, source, s)
  {
    FirstChildUnaffected(edges, more, source, SideKind(s));
  }

  // ----- the whole call ------------------------------------------------------------------------

  predicate HasAll(chain: map<ChainKey, Id>, k: nat)
    requires k <= ARTIFACTS
  {
    forall i :: 0 <= i < k ==> At(Artifact(i)) in chain
  }

  /** The edges of a child with its first `k` artifacts linked, as the source's graph stood before. */
  function ChildEdges(child: string, chain: map<ChainKey, Id>, edges: seq<Edge<Id, Kind>>, k: nat): seq<Edge<Id, Kind>>
    requires k <= ARTIFACTS && Run in chain && HasAll(chain, k)
  {
    if k == 0 then [Link(Request(child), chain[Run], Resumes)]
    else
      var s := Artifact(k - 1);
      ChildEdges(child, chain, edges, k - 1) + ArtifactEdges(child, chain[At(s)], s, SideOf(edges, chain[At(s)], s))
  }

  ghost predicate InStore(chain: map<ChainKey, Id>, nodes: map<Id, Node>) {
    forall key :: key in chain ==> chain[key] in nodes
  }

  /** Every stored node stays, the child's regime context possibly merged into; new ones are the child's. */
  ghost predicate Beside(before: map<Id, Node>, after: map<Id, Node>, child: string) {
    && (forall id :: id in before ==> id in after && (id != Regime(child) ==> after[id] == before[id]))
    && (forall id :: id in after ==> id in before || id == Request(child) || id == Regime(child) || (id.Clone? && id.run == child))
  }

  ghost predicate CloneOf(before: map<Id, Node>, after: map<Id, Node>, child: string, source: Id, s: Stage)
    requires source in before
  {
    var props := LinkedProps(s, child, source, before[source].props);
    && props.Some? && Clone(child, s) in after && after[Clone(child, s)] == Node(FreezeProps(props.value), 1)
  }

  /** The first `k` clones were stored beside `before`. */
  ghost predicate Cloned(before: map<Id, Node>, after: map<Id, Node>, child: string, chain: map<ChainKey, Id>, k: nat)
    requires k <= ARTIFACTS && HasAll(chain, k) && InStore(chain, before)
  {
    && Beside(before, after, child)
    && (forall s :: Clone(child, s) in after <==> Index(s) < k)
    && (forall i :: 0 <= i < k ==> CloneOf(before, after, child, chain[At(Artifact(i))], Artifact(i)))
  }

  /** Keys of clones are only ever written for a run that was placed. */
  ghost predicate Owned(ids: set<Id>) {
    forall id :: id in ids && id.Clone? ==> Request(id.run) in ids
  }

  /** `after` keeps every node but may merge into the child's regime context; its new edges all leave
      from added nodes, or are that context's link to its source. */
  ghost predicate Extends(nodes: map<Id, Node>, edges: seq<Edge<Id, Kind>>, nodesAfter: map<Id, Node>,
                          edgesAfter: seq<Edge<Id, Kind>>, child: string)
  {
    && (forall id :: id in nodes ==> id in nodesAfter && (id != Regime(child) ==> nodesAfter[id] == nodes[id]))
    && edges <= edgesAfter
    && (forall i :: |edges| <= i < |edgesAfter| ==>
          edgesAfter[i].parent !in nodes || (edgesAfter[i].parent == Regime(child) && edgesAfter[i].kind == LinkedFrom))
  }

  ghost predicate ContextUntouched(before: map<Id, Node>, after: map<Id, Node>, child: string) {
    && (Regime(child) in after <==> Regime(child) in before)
    && (Regime(child) in before ==> after[Regime(child)] == before[Regime(child)])
  }

  /** The child stands beside `before`, with its first `k` artifacts linked. */
  ghost predicate Linked(before: map<Id, Node>, edges: seq<Edge<Id, Kind>>, nodesAfter: map<Id, Node>,
                         edgesAfter: seq<Edge<Id, Kind>>, child: string, chain: map<ChainKey, Id>, k: nat)
    requires k <= ARTIFACTS && Run in chain && HasAll(chain, k) && InStore(chain, before)
  {
    && Request(child) !in before && (forall s :: Clone(child, s) !in before) && Request(child) in nodesAfter
    && Cloned(before, nodesAfter, child, chain, k) && ContextUntouched(before, nodesAfter, child)
    && edgesAfter == edges + ChildEdges(child, chain, edges, k)
  }

  /** The child's request, if stored, is as it was. */
  ghost predicate SameRequest(before: map<Id, Node>, after: map<Id, Node>, child: string) {
    Request(child) in before ==> Request(child) in after && after[Request(child)] == before[Request(child)]
  }

  /** The linking loop of `_link_upstream`; it stops early only when a PMRun has no order set. */
  method LinkUpstream(graph: InMemoryGraphStore<Id, Kind>, child: string, chain: map<ChainKey, Id>, k: nat,
                      ghost before: map<Id, Node>, ghost edges: seq<Edge<Id, Kind>>)
    returns (linked: nat)
    requires graph.Valid() && k <= ARTIFACTS && Run in chain && HasAll(chain, k) && InStore(chain, before)
    requires Linked(before, edges, graph.nodes, graph.edges, child, chain, 0)
    modifies graph
    ensures graph.Valid() && linked <= k
    ensures Linked(before, edges, graph.nodes, graph.edges, child, chain, linked)
    ensures SameRequest(old(graph.nodes), graph.nodes, child)
    ensures linked < k ==> Artifact(linked) == PMRun
    ensures linked < k ==> LinkedProps(PMRun, child, chain[At(PMRun)], before[chain[At(PMRun)]].props).None?
  {
    hide InMemoryGraphStore.Valid, Linked, LinkedProps, Artifact;
    linked := 0;
    while linked < k
      invariant graph.Valid() && linked <= k
      invariant Linked(before, edges, graph.nodes, graph.edges, child, chain, linked)
      invariant SameRequest(old(graph.nodes), graph.nodes, child)
    {
      var ok := LinkNext(graph, child, chain, linked, before, edges);
      if !ok { return; }
      linked := linked + 1;
    }
  }

  method LinkNext(graph: InMemoryGraphStore<Id, Kind>, child: string, chain: map<ChainKey, Id>, i: nat,
                  ghost before: map<Id, Node>, ghost edges: seq<Edge<Id, Kind>>)
    returns (ok: bool)
    requires graph.Valid() && i < ARTIFACTS && Run in chain && HasAll(chain, i + 1) && InStore(chain, before)
    requires Linked(before, edges, graph.nodes, graph.edges, child, chain, i)
    modifies graph
    ensures graph.Valid()
    ensures ok ==> Linked(before, edges, graph.nodes, graph.edges, child, chain, i + 1)
    ensures SameRequest(old(graph.nodes), graph.nodes, child)
    ensures !ok ==> graph.nodes == old(graph.nodes) && graph.edges == old(graph.edges)
    ensures !ok ==> Artifact(i) == PMRun
    ensures !ok ==> LinkedProps(PMRun, child, chain[At(PMRun)], before[chain[At(PMRun)]].props).None?
  {
    var s := Artifact(i);
    var source := chain[At(s)];
    ghost var nodes := graph.nodes;
    assert nodes[source] == before[source];
    ParentIsThere(before, nodes, child, chain, i);
    OnlyPMRunFails(s, child, source, before[source].props);
    SideSeenBefore(before, edges, child, chain, i);
    hide InMemoryGraphStore.Valid, Cloned, LinkedProps, FreezeProps, SideOf, ArtifactEdges, ParentOf, Artifact;
    ok := LinkArtifact(graph, child, source, s);
    if ok {
      OneMoreClone(before, nodes, graph.nodes, child, chain, i);
      Associates(edges, ChildEdges(child, chain, edges, i), ArtifactEdges(child, source, s, SideOf(edges, source, s)));
    }
  }

  lemma OnlyPMRunFails(s: Stage, child: string, source: Id, p: Props)
    ensures LinkedProps(s, child, source, p).None? ==> s == PMRun
  {
  }

  lemma ParentIsThere(before: map<Id, Node>, nodes: map<Id, Node>, child: string, chain: map<ChainKey, Id>, i: nat)
    requires i < ARTIFACTS && HasAll(chain, i + 1) && InStore(chain, before) && Request(child) in nodes
    requires Cloned(before, nodes, child, chain, i)
    ensures ParentOf(child, Artifact(i)) in nodes && Clone(child, Artifact(i)) !in nodes
    ensures Artifact(i) == ScanRun ==> Clone(child, MarketData) in nodes
  {
    hide LinkedProps, FreezeProps;
    assert Index(Artifact(i)) == i;
    if i >= 2 { assert Index(Artifact(i - 1)) == i - 1; }
    assert Index(MarketData) == 1;
  }

  lemma OneMoreClone(before: map<Id, Node>, nodes: map<Id, Node>, after: map<Id, Node>, child: string,
                     chain: map<ChainKey, Id>, i: nat)
    requires i < ARTIFACTS && HasAll(chain, i + 1) && InStore(chain, before)
    requires Cloned(before, nodes, child, chain, i) && Clone(child, Artifact(i)) !in nodes
    requires ContextUntouched(before, nodes, child)
    requires var source := chain[At(Artifact(i))];
             var props := LinkedProps(Artifact(i), child, source, nodes[source].props);
             props.Some? && after == nodes[Clone(child, Artifact(i)) := Node(FreezeProps(props.value), 1)]
    ensures Cloned(before, after, child, chain, i + 1) && ContextUntouched(before, after, child)
  {
    hide LinkedProps, FreezeProps;
    var s := Artifact(i);
    assert nodes[chain[At(s)]] == before[chain[At(s)]];
    assert CloneOf(before, after, child, chain[At(s)], s);
    CloneKeysGrow(nodes, after, child, i);
    BesideGrows(before, nodes, after, child, Clone(child, s));
    hide Beside;
    forall j | 0 <= j < i ensures CloneOf(before, after, child, chain[At(Artifact(j))], Artifact(j)) {
      IndexOfArtifact(j);
      IndexOfArtifact(i);
      assert CloneOf(before, nodes, child, chain[At(Artifact(j))], Artifact(j));
    }
  }

  lemma IndexOfArtifact(i: nat)
    requires i < ARTIFACTS
    ensures Index(Artifact(i)) == i
  {
  }

  lemma CloneKeysGrow(nodes: map<Id, Node>, after: map<Id, Node>, child: string, i: nat)
    requires i < ARTIFACTS && (forall s :: Clone(child, s) in nodes <==> Index(s) < i)
    requires after.Keys == nodes.Keys + {Clone(child, Artifact(i))}
    ensures forall s :: Clone(child, s) in after <==> Index(s) < i + 1
  {
    IndexOfArtifact(i);
    forall s ensures Clone(child, s) in after <==> Index(s) < i + 1 {
      if Index(s) == i { assert s == Artifact(i); }
    }
  }

  lemma BesideGrows(before: map<Id, Node>, nodes: map<Id, Node>, after: map<Id, Node>, child: string, id: Id)
    requires Beside(before, nodes, child) && id !in nodes && id.Clone? && id.run == child
    requires id in after && after == nodes[id := after[id]]
    ensures Beside(before, after, child)
  {
  }

  /** The side branch of a source is the one it had before the child was placed. */
  lemma SideSeenBefore(before: map<Id, Node>, edges: seq<Edge<Id, Kind>>, child: string, chain: map<ChainKey, Id>, i: nat)
    requires i < ARTIFACTS && Run in chain && HasAll(chain, i + 1) && InStore(chain, before)
    requires Request(child) !in before && forall s :: Index(s) < i ==> Clone(child, s) !in before
    ensures var s := Artifact(i);
            SideOf(edges + ChildEdges(child, chain, edges, i), chain[At(s)], s) == SideOf(edges, chain[At(s)], s)
  {
    ParentsAreNew(before, edges, child, chain, i);
    SideUnaffected(edges, ChildEdges(child, chain, edges, i), chain[At(Artifact(i))], Artifact(i));
  }

  /** Every edge of the child leaves from one of its own nodes. */
  lemma {:induction false} ParentsAreNew(before: map<Id, Node>, edges: seq<Edge<Id, Kind>>, child: string,
                                         chain: map<ChainKey, Id>, k: nat)
    requires k <= ARTIFACTS && Run in chain && HasAll(chain, k)
    requires Request(child) !in before && forall s :: Index(s) < k ==> Clone(child, s) !in before
    ensures forall e :: e in ChildEdges(child, chain, edges, k) ==> e.parent !in before
  {
    if k > 0 {
      ParentsAreNew(before, edges, child, chain, k - 1);
      assert Index(Artifact(k - 1)) == k - 1;
      if k > 1 { assert Index(Artifact(k - 2)) == k - 2; }
      assert Clone(child, Artifact(k - 1)) !in before && ParentOf(child, Artifact(k - 1)) !in before;
    }
  }

  /** `str(market.props.get("run_id", ""))`; `render` is `str` on values that are not text. */
  function MarketRun(p: Props, render: Value -> string): string {
    if "run_id" !in p then "" else if p["run_id"].Text? then p["run_id"].s else render(p["run_id"])
  }

  function RegimeOf(nodes: map<Id, Node>, market: Id, render: Value -> string): (r: Option<Id>)
    requires market in nodes
    ensures r.Some? ==> r.value in nodes && r.value.Regime?
  {
    var source := Regime(MarketRun(nodes[market].props, render));
    if source in nodes then Some(source) else None
  }

  function ContextProps(nodes: map<Id, Node>, source: Id, child: string): Props
    requires source in nodes
  {
    WithText(WithText(nodes[source].props, "run_id", child), "linked_from_key", KeyOf(source))
  }

  /** What the child's context holds once it is merged: the child's run, the key of the context it was cloned
      from, the rest of that context's properties and, where the child had a context already, the rest of
      its own. */
  ghost predicate ContextHolds(before: map<Id, Node>, after: map<Id, Node>, source: Id, child: string) {
    var own := if Regime(child) in before then before[Regime(child)].props else map[];
    && source in before && Regime(child) in after
    && var p, q := before[source].props, after[Regime(child)].props;
       && q.Keys == p.Keys + own.Keys + {"run_id", "linked_from_key"}
       && q["run_id"] == Text(child) && q["linked_from_key"] == Text(KeyOf(source))
       && (forall name :: name in p && name !in {"run_id", "linked_from_key"} ==> q[name] == Freeze(p[name]))
       && (forall name :: name in own && name !in p && name !in {"run_id", "linked_from_key"} ==> q[name] == Freeze(own[name]))
  }

  lemma ContextWritten(before: map<Id, Node>, nodes: map<Id, Node>, child: string, source: Id)
    requires source in before && source in nodes && nodes[source] == before[source]
    requires Regime(child) in nodes <==> Regime(child) in before
    requires Regime(child) in before ==> nodes[Regime(child)] == before[Regime(child)]
    requires MergeAccepted(nodes, Merge(Regime(child), ContextProps(nodes, source, child), 1))
    ensures ContextHolds(before, AfterMerge(nodes, Merge(Regime(child), ContextProps(nodes, source, child), 1)), source, child)
  {
    hide MergeAccepted, KeyOf, Freeze;
    var p, incoming := before[source].props, ContextProps(nodes, source, child);
    assert |"run_id"| == 6 && |"linked_from_key"| == 15;
    assert incoming["run_id"] == Text(child) && incoming["linked_from_key"] == Text(KeyOf(source));
    forall name | name in incoming ensures Freeze(Freeze(incoming[name])) == Freeze(incoming[name]) {
      FreezeIdempotent(incoming[name]);
    }
    TextFrozen(child);
    TextFrozen(KeyOf(source));
  }

  lemma TextFrozen(text: string)
    ensures Freeze(Text(text)) == Text(text)
  {
  }

  /** `_link_regime`: the child's context is merged, which raises when one is stored already that it may
      not be merged into. */
  method LinkRegime(graph: InMemoryGraphStore<Id, Kind>, child: string, market: Id, render: Value -> string)
    returns (source: Option<Id>, ok: bool)
    requires graph.Valid() && market in graph.nodes
    modifies graph
    ensures graph.Valid() && source == RegimeOf(old(graph.nodes), market, render)
    ensures source.None? ==> ok && graph.nodes == old(graph.nodes) && graph.edges == old(graph.edges)
    ensures source.Some? ==>
      var m := Merge(Regime(child), ContextProps(old(graph.nodes), source.value, child), 1);
      graph.nodes == AfterMerge(old(graph.nodes), m) && (ok <==> MergeAccepted(old(graph.nodes), m))
    ensures source.Some? ==>
      graph.edges == old(graph.edges) + if ok then ContextEdges(child, Added(old(graph.edges), child, source)) else []
  {
    source := RegimeOf(graph.nodes, market, render);
    ok := true;
    if source.Some? {
      assert source.value in graph.nodes;
      hide RegimeOf, InMemoryGraphStore.Valid, AfterMerge, MergeAccepted, ContextProps, Added;
      ghost var nodes := graph.nodes;
      ok := MergeContext(graph, child, ContextProps(graph.nodes, source.value, child));
      if ok {
        MergedIsThere(nodes, Merge(Regime(child), ContextProps(nodes, source.value, child), 1), source.value);
        LinkContextEdge(graph, child, source.value);
      }
    }
  }

  method MergeContext(graph: InMemoryGraphStore<Id, Kind>, child: string, props: Props) returns (ok: bool)
    requires graph.Valid()
    modifies graph`nodes, graph`order
    ensures graph.Valid()
    ensures var m := Merge(Regime(child), props, 1);
            graph.nodes == AfterMerge(old(graph.nodes), m) && (ok <==> MergeAccepted(old(graph.nodes), m))
  {
    hide InMemoryGraphStore.Valid, AfterMerge, MergeAccepted;
    var names := NamesOf(props);
    var merged := graph.MergeNode(Regime(child), props, names, 1);
    ok := merged.Ok?;
  }

  method LinkContextEdge(graph: InMemoryGraphStore<Id, Kind>, child: string, source: Id)
    requires graph.Valid() && Regime(child) in graph.nodes && source in graph.nodes
    modifies graph`edges
    ensures graph.Valid()
    ensures graph.edges == old(graph.edges) + ContextEdges(child, Added(old(graph.edges), child, Some(source)))
  {
    EmptyFrozen();
    var linked := graph.AddEdge(Regime(child), source, LinkedFrom, map[]);
  }

  lemma MergedIsThere(nodes: map<Id, Node>, m: Merge<Id>, id: Id)
    requires MergeAccepted(nodes, m) && id in nodes
    ensures m.id in AfterMerge(nodes, m) && id in AfterMerge(nodes, m)
  {
  }

  lemma EmptyFrozen()
    ensures FreezeProps(map[]) == map[]
  {
  }

  /** The context to link, unless it is linked already. */
  ghost function Added(edges: seq<Edge<Id, Kind>>, child: string, context: Option<Id>): Option<Id> {
    if context.Some? && NoLink(edges, Regime(child), context.value, LinkedFrom) then context else None
  }

  ghost function ContextEdges(child: string, context: Option<Id>): seq<Edge<Id, Kind>> {
    if context.None? then [] else [Link(Regime(child), context.value, LinkedFrom)]
  }

  /** The source of every clone in view, in order; nodes that link to nothing are passed over. */
  function SourcesOf(edges: seq<Edge<Id, Kind>>, clones: seq<Id>): seq<Id> {
    if clones == [] then []
    else
      SourcesOf(edges, clones[..|clones| - 1])
      + match FirstChild(edges, clones[|clones| - 1], LinkedFrom)
        case None => []
        case Some(source) => [source]
  }

  function ArtifactKinds(): set<Kind> {
    {By(PositionSync), By(MarketData), By(ScanRun), By(AnalystRun), By(PMRun), By(ExecutionRun), By(MonitorRun), By(Snapshot)}
  }

  function CloneTree(edges: seq<Edge<Id, Kind>>, child: string): seq<Id> {
    Walk(edges, View(Kinds(ArtifactKinds()), true), Request(child), 8)
  }

  /** `_linked_refs`: the references a repeated call derives from the edges alone. */
  method LinkedRefs(graph: InMemoryGraphStore<Id, Kind>, child: string) returns (refs: seq<Id>)
    requires graph.Valid()
    ensures refs == SourcesOf(graph.edges, CloneTree(graph.edges, child))
  {
    hide FirstChild, Walk, ArtifactKinds;
    refs := [];
    var clones := graph.WalkFrom(Request(child), 8, View(Kinds(ArtifactKinds()), true));
    for i := 0 to |clones|
      invariant refs == SourcesOf(graph.edges, clones[..i])
    {
      assert clones[..i + 1][..i] == clones[..i];
      var source := FirstFound(graph, clones[i], LinkedFrom);
      if source.Some? { refs := refs + [source.value]; }
    }
    assert clones[..|clones|] == clones;
  }

  function Listed(p: Props, name: string): Value {
    if name !in p then ListV([]) else if p[name].TupleV? then ListV(p[name].items) else p[name]
  }

  function RequestProps(p: Props, source: string, child: string, stage: Stage, at: string): Props {
    map["run_id" := Text(child), "tickers" := Listed(p, "tickers"),
        "requested_at" := if "requested_at" in p then p["requested_at"] else Null,
        "resume_from" := Text(StageName(stage)), "source_run_id" := Text(source), "resumed_at" := Text(at)]
  }

  /** What the child's request holds, property by property: its own run, the tickers and request time of
      the source's request `p`, and where, from what and when it was resumed. */
  ghost predicate RequestHolds(node: Node, p: Props, source: string, child: string, stage: Stage, at: string) {
    && node.schemaVersion == 1
    && node.props.Keys == {"run_id", "tickers", "requested_at", "resume_from", "source_run_id", "resumed_at"}
    && node.props["run_id"] == Text(child)
    && node.props["tickers"] == (if "tickers" in p then Freeze(p["tickers"]) else TupleV([]))
    && node.props["requested_at"] == (if "requested_at" in p then Freeze(p["requested_at"]) else Null)
    && node.props["resume_from"] == Text(StageName(stage))
    && node.props["source_run_id"] == Text(source)
    && node.props["resumed_at"] == Text(at)
  }

  lemma RequestIsWritten(p: Props, source: string, child: string, stage: Stage, at: string)
    ensures RequestHolds(Node(FreezeProps(RequestProps(p, source, child, stage, at)), 1), p, source, child, stage, at)
  {
    hide StageName;
    var q := RequestProps(p, source, child, stage, at);
    assert |"run_id"| == 6 && |"tickers"| == 7 && |"requested_at"| == 12 && |"resume_from"| == 11
        && |"source_run_id"| == 13 && |"resumed_at"| == 10;
    assert q["run_id"] == Text(child) && q["tickers"] == Listed(p, "tickers");
    assert FreezeAll([]) == [];
  }

  datatype Outcome =
    | UnknownSource
    | MissingStage(stage: Stage)
    | Placed(linked: seq<Id>, created: bool)
    | NoOrderSet
    | ContextRefused

  /** The references a first call returns. */
  function Refs(chain: map<ChainKey, Id>, k: nat): seq<Id>
    requires k <= ARTIFACTS && HasAll(chain, k)
  {
    seq(k, i requires 0 <= i < k => chain[At(Artifact(i))])
  }

  function Optional<X>(x: Option<X>): seq<X> { if x.None? then [] else [x.value] }

  /** `resume_run` up to placing: the source must exist and its chain hold every required artifact. */
  method FirstMissing(chain: map<ChainKey, Id>, k: nat) returns (missing: Option<Stage>)
    requires k <= ARTIFACTS
    ensures missing.None? <==> HasAll(chain, k)
    ensures missing.Some? ==> Index(missing.value) < k && At(missing.value) !in chain && HasAll(chain, Index(missing.value))
  {
    for i := 0 to k
      invariant HasAll(chain, i)
    {
      if At(Artifact(i)) !in chain {
        assert Index(Artifact(i)) == i;
        return Some(Artifact(i));
      }
    }
    return None;
  }

  /** What the chain walk finds is stored, under the run's own request. */
  lemma {:induction false} BelowIsStored(nodes: map<Id, Node>, edges: seq<Edge<Id, Kind>>, current: Id, i: nat)
    requires 1 <= i <= ARTIFACTS && Closed(edges, nodes.Keys)
    ensures InStore(Below(edges, current, i), nodes) && Run !in Below(edges, current, i)
    decreases ARTIFACTS - i
  {
    if i < ARTIFACTS {
      hide FirstChild, Closed, Artifact;
      var next := FirstChild(edges, current, By(Artifact(i)));
      if next.Some? {
        ChildIsStored(nodes, edges, current, By(Artifact(i)));
        FoundIsStored(nodes, edges, next.value, i);
        BelowIsStored(nodes, edges, next.value, i + 1);
        hide Found;
      }
    }
  }

  lemma FoundIsStored(nodes: map<Id, Node>, edges: seq<Edge<Id, Kind>>, x: Id, i: nat)
    requires i < ARTIFACTS && Closed(edges, nodes.Keys) && x in nodes
    ensures InStore(Found(edges, x, i), nodes) && Run !in Found(edges, x, i)
  {
    ChildIsStored(nodes, edges, x, DeliberatedBy);
    hide FirstChild, Closed;
  }

  lemma ChildIsStored(nodes: map<Id, Node>, edges: seq<Edge<Id, Kind>>, x: Id, kind: Kind)
    requires Closed(edges, nodes.Keys)
    ensures FirstChild(edges, x, kind).Some? ==> FirstChild(edges, x, kind).value in nodes
  {
    var v := View(Kinds({kind}), true);
    WalkOfOne(edges, v, x);
    LevelIs(edges, v, {x}, {x});
    if FirstChild(edges, x, kind).Some? {
      assert FirstChild(edges, x, kind).value in Level(edges, v, {x}, {x});
    }
  }

  lemma ChainIsStored(nodes: map<Id, Node>, edges: seq<Edge<Id, Kind>>, run: string)
    requires Closed(edges, nodes.Keys) && Request(run) in nodes
    ensures var chain := Chain(nodes, edges, run);
            Run in chain && chain[Run] == Request(run) && InStore(chain, nodes)
  {
    BelowIsStored(nodes, edges, Request(run), 1);
    MarkerIsStored(nodes, ChildrenOf(edges, Request(run), By(PositionSync)));
    hide Below, FirstMarker, ChildrenOf;
  }

  lemma {:induction false} MarkerIsStored(nodes: map<Id, Node>, found: seq<Id>)
    ensures FirstMarker(nodes, found).Some? ==> FirstMarker(nodes, found).value in nodes
  {
    if found != [] { MarkerIsStored(nodes, found[1..]); }
  }

  lemma UnplacedOwnsNothing(nodes: map<Id, Node>, run: string)
    requires Owned(nodes.Keys) && Request(run) !in nodes
    ensures forall s :: Clone(run, s) !in nodes
  {
    forall s ensures Clone(run, s) !in nodes { assert Clone(run, s).run == run; }
  }

  lemma HasFewer(chain: map<ChainKey, Id>, k: nat, j: nat)
    requires j <= k <= ARTIFACTS && HasAll(chain, k)
    ensures HasAll(chain, j)
  {
  }

  lemma LinkedAtStart(before: map<Id, Node>, edges: seq<Edge<Id, Kind>>, nodes: map<Id, Node>, links: seq<Edge<Id, Kind>>,
                      child: string, chain: map<ChainKey, Id>)
    requires Run in chain && InStore(chain, before) && Request(child) !in before && (forall s :: Clone(child, s) !in before)
    requires Request(child) in nodes && nodes == before[Request(child) := nodes[Request(child)]]
    requires links == edges + [Link(Request(child), chain[Run], Resumes)]
    ensures Linked(before, edges, nodes, links, child, chain, 0)
  {
  }

  /** The chain's PMRun has no order set to rewrite for the child. */
  ghost predicate NoOrders(nodes: map<Id, Node>, chain: map<ChainKey, Id>, child: string) {
    && At(PMRun) in chain && chain[At(PMRun)] in nodes
    && LinkedProps(PMRun, child, chain[At(PMRun)], nodes[chain[At(PMRun)]].props).None?
  }

  /** The child's request and as many clones as the order set allows. */
  method PlaceChild(graph: InMemoryGraphStore<Id, Kind>, source: string, stage: Stage, at: string,
                    chain: map<ChainKey, Id>)
    returns (linked: nat)
    requires graph.Valid() && Owned(graph.nodes.Keys) && Request(source) in graph.nodes
    requires HasAll(chain, Index(stage)) && Run in chain && chain[Run] == Request(source) && InStore(chain, graph.nodes)
    requires Request(ChildRun(source, stage)) !in graph.nodes
    modifies graph
    ensures graph.Valid() && linked <= Index(stage) && HasAll(chain, linked)
    ensures Linked(old(graph.nodes), old(graph.edges), graph.nodes, graph.edges, ChildRun(source, stage), chain, linked)
    ensures Extends(old(graph.nodes), old(graph.edges), graph.nodes, graph.edges, ChildRun(source, stage))
    ensures Owned(graph.nodes.Keys) && Request(ChildRun(source, stage)) in graph.nodes
    ensures RequestHolds(graph.nodes[Request(ChildRun(source, stage))], old(graph.nodes)[Request(source)].props,
                         source, ChildRun(source, stage), stage, at)
    ensures linked < Index(stage) ==> NoOrders(old(graph.nodes), chain, ChildRun(source, stage))
  {
    ghost var before, edges := graph.nodes, graph.edges;
    var child := ChildRun(source, stage);
    UnplacedOwnsNothing(before, child);
    RequestIsWritten(before[Request(source)].props, source, child, stage, at);
    hide Owned, Closed, ChildRun, RequestProps, LinkedProps, Artifact, FreezeProps, RequestHolds;
    AddNode(graph, Request(child), RequestProps(graph.nodes[Request(source)].props, source, child, stage, at));
    AddLink(graph, Request(child), Request(source), Resumes);
    LinkedAtStart(before, edges, graph.nodes, graph.edges, child, chain);
    hide Linked, InMemoryGraphStore.Valid, InStore, HasAll;
    linked := LinkUpstream(graph, child, chain, Index(stage), before, edges);
    HasFewer(chain, Index(stage), linked);
    LinkedExtends(before, edges, graph.nodes, graph.edges, child, chain, linked);
  }

  /** The regime context the child's is cloned from, if the run's market data names one. */
  ghost function Context(nodes: map<Id, Node>, chain: map<ChainKey, Id>, k: nat, render: Value -> string): Option<Id>
    requires k <= ARTIFACTS && HasAll(chain, k) && InStore(chain, nodes)
  {
    if k < 2 then None
    else
      assert Artifact(1) == MarketData;
      RegimeOf(nodes, chain[At(MarketData)], render)
  }

  /** The graph after a child was placed: the source's required artifacts cloned and linked. */
  ghost predicate IsPlaced(before: map<Id, Node>, edges: seq<Edge<Id, Kind>>, after: map<Id, Node>,
                           edgesAfter: seq<Edge<Id, Kind>>, source: string, stage: Stage, render: Value -> string)
  {
    var chain, k, child := Chain(before, edges, source), Index(stage), ChildRun(source, stage);
    && Request(source) in before && HasAll(chain, k) && Run in chain && InStore(chain, before)
    && Request(child) !in before && (forall s :: Clone(child, s) !in before)
    && Request(child) in after && Cloned(before, after, child, chain, k)
    && edgesAfter == edges + ChildEdges(child, chain, edges, k)
                     + ContextEdges(child, Added(edges, child, Context(before, chain, k, render)))
  }

  /** The child was placed, and the references are the artifacts' and the regime context's. */
  ghost predicate ReturnsPlaced(before: map<Id, Node>, edges: seq<Edge<Id, Kind>>, after: map<Id, Node>,
                                edgesAfter: seq<Edge<Id, Kind>>, source: string, stage: Stage, render: Value -> string,
                                linked: seq<Id>)
  {
    && IsPlaced(before, edges, after, edgesAfter, source, stage, render)
    && var chain := Chain(before, edges, source);
       && linked == Refs(chain, Index(stage)) + Optional(Context(before, chain, Index(stage), render))
       && (Context(before, chain, Index(stage), render).Some? ==>
             ContextHolds(before, after, Context(before, chain, Index(stage), render).value, ChildRun(source, stage)))
  }

  lemma LinkedExtends(before: map<Id, Node>, edges: seq<Edge<Id, Kind>>, after: map<Id, Node>,
                      edgesAfter: seq<Edge<Id, Kind>>, child: string, chain: map<ChainKey, Id>, k: nat)
    requires k <= ARTIFACTS && Run in chain && HasAll(chain, k) && InStore(chain, before) && Owned(before.Keys)
    requires Linked(before, edges, after, edgesAfter, child, chain, k)
    ensures Extends(before, edges, after, edgesAfter, child) && Owned(after.Keys) && Request(child) in after
  {
    hide LinkedProps, FreezeProps, ChildEdges;
    ParentsAreNew(before, edges, child, chain, k);
    forall i | |edges| <= i < |edgesAfter| ensures edgesAfter[i].parent !in before {
      assert edgesAfter[i] in ChildEdges(child, chain, edges, k);
    }
  }

  /** `resume_run`. */
  method ResumeRun(graph: InMemoryGraphStore<Id, Kind>, source: string, stage: Stage, at: string, render: Value -> string)
    returns (r: Outcome)
    requires graph.Valid() && Owned(graph.nodes.Keys)
    modifies graph
    ensures graph.Valid() && Owned(graph.nodes.Keys)
    ensures Extends(old(graph.nodes), old(graph.edges), graph.nodes, graph.edges, ChildRun(source, stage))
    ensures r == UnknownSource <==> Request(source) !in old(graph.nodes)
    ensures r.MissingStage? ==>
      var chain := Chain(old(graph.nodes), old(graph.edges), source);
      Index(r.stage) < Index(stage) && At(r.stage) !in chain && HasAll(chain, Index(r.stage))
    ensures r.Placed? || r.NoOrderSet? || r.ContextRefused? ==>
      HasAll(Chain(old(graph.nodes), old(graph.edges), source), Index(stage)) && Request(ChildRun(source, stage)) in graph.nodes
    ensures r.Placed? ==> (r.created <==> Request(ChildRun(source, stage)) !in old(graph.nodes))
    ensures (r.Placed? && r.created) || r.NoOrderSet? || r.ContextRefused? ==>
      RequestHolds(graph.nodes[Request(ChildRun(source, stage))], old(graph.nodes)[Request(source)].props,
                   source, ChildRun(source, stage), stage, at)
    ensures r.UnknownSource? || r.MissingStage? || (r.Placed? && !r.created) ==>
      graph.nodes == old(graph.nodes) && graph.edges == old(graph.edges)
    ensures r.Placed? && !r.created ==>
      r.linked == SourcesOf(graph.edges, CloneTree(graph.edges, ChildRun(source, stage)))
    ensures r.Placed? && r.created ==>
      ReturnsPlaced(old(graph.nodes), old(graph.edges), graph.nodes, graph.edges, source, stage, render, r.linked)
    ensures r.NoOrderSet? ==>
      NoOrders(old(graph.nodes), Chain(old(graph.nodes), old(graph.edges), source), ChildRun(source, stage))
    ensures r.ContextRefused? ==> Regime(ChildRun(source, stage)) in old(graph.nodes)
  {
    if Request(source) !in graph.nodes { return UnknownSource; }
    ghost var before, edges := graph.nodes, graph.edges;
    var chain := WalkChain(graph, source);
    ChainIsStored(graph.nodes, graph.edges, source);
    var k := Index(stage);
    var missing := FirstMissing(chain, k);
    if missing.Some? { return MissingStage(missing.value); }
    var child := ChildRun(source, stage);
    hide InMemoryGraphStore.Valid, Owned, Chain, ChildRun, IsPlaced, Refs, Context, NoOrders, InStore,
      RequestHolds;
    if Request(child) in graph.nodes {
      var refs := LinkedRefs(graph, child);
      return Placed(refs, false);
    }
    r := Create(graph, source, stage, at, chain, render);
  }

  /** The writing half of `resume_run`. */
  method Create(graph: InMemoryGraphStore<Id, Kind>, source: string, stage: Stage, at: string,
                chain: map<ChainKey, Id>, render: Value -> string)
    returns (r: Outcome)
    requires graph.Valid() && Owned(graph.nodes.Keys) && Request(source) in graph.nodes
    requires chain == Chain(graph.nodes, graph.edges, source) && HasAll(chain, Index(stage))
    requires Run in chain && chain[Run] == Request(source) && InStore(chain, graph.nodes)
    requires Request(ChildRun(source, stage)) !in graph.nodes
    modifies graph
    ensures graph.Valid() && Owned(graph.nodes.Keys) && Request(ChildRun(source, stage)) in graph.nodes
    ensures Extends(old(graph.nodes), old(graph.edges), graph.nodes, graph.edges, ChildRun(source, stage))
    ensures (r.Placed? && r.created) || r.NoOrderSet? || r.ContextRefused?
    ensures RequestHolds(graph.nodes[Request(ChildRun(source, stage))], old(graph.nodes)[Request(source)].props,
                         source, ChildRun(source, stage), stage, at)
    ensures r.Placed? ==>
      ReturnsPlaced(old(graph.nodes), old(graph.edges), graph.nodes, graph.edges, source, stage, render, r.linked)
    ensures r.NoOrderSet? ==> NoOrders(old(graph.nodes), chain, ChildRun(source, stage))
    ensures r.ContextRefused? ==> Regime(ChildRun(source, stage)) in old(graph.nodes)
  {
    hide *;
    ghost var before, edges := graph.nodes, graph.edges;
    var linked := PlaceChild(graph, source, stage, at, chain);
    if linked < Index(stage) { return NoOrderSet; }
    ghost var nodes := graph.nodes;
    r := Finish(graph, source, stage, chain, before, edges, render);
    RequestStays(nodes, graph.nodes, ChildRun(source, stage));
  }

  lemma RequestStays(before: map<Id, Node>, after: map<Id, Node>, child: string)
    requires SameRequest(before, after, child) && Request(child) in before
    ensures Request(child) in after && after[Request(child)] == before[Request(child)]
  {
  }

  /** What is left once every artifact is linked. */
  method Finish(graph: InMemoryGraphStore<Id, Kind>, source: string, stage: Stage, chain: map<ChainKey, Id>,
                ghost before: map<Id, Node>, ghost edges: seq<Edge<Id, Kind>>, render: Value -> string)
    returns (r: Outcome)
    requires graph.Valid() && Owned(graph.nodes.Keys) && Request(source) in before
    requires chain == Chain(before, edges, source) && Run in chain && HasAll(chain, Index(stage)) && InStore(chain, before)
    requires Linked(before, edges, graph.nodes, graph.edges, ChildRun(source, stage), chain, Index(stage))
    requires Extends(before, edges, graph.nodes, graph.edges, ChildRun(source, stage))
    modifies graph
    ensures graph.Valid() && Owned(graph.nodes.Keys) && Request(ChildRun(source, stage)) in graph.nodes
    ensures Extends(before, edges, graph.nodes, graph.edges, ChildRun(source, stage))
    ensures (r.Placed? && r.created) || r.ContextRefused?
    ensures SameRequest(old(graph.nodes), graph.nodes, ChildRun(source, stage))
    ensures r.Placed? ==> ReturnsPlaced(before, edges, graph.nodes, graph.edges, source, stage, render, r.linked)
    ensures r.ContextRefused? ==> Regime(ChildRun(source, stage)) in before
  {
    LinkedParts(before, edges, graph.nodes, graph.edges, ChildRun(source, stage), chain, Index(stage));
    hide InMemoryGraphStore.Valid, Owned, Extends, Chain, ChildRun, Cloned, ChildEdges, Artifact, Context, Added, HasAll, InStore,
      Linked, IsPlaced, Refs;
    var context, ok := LinkContext(graph, ChildRun(source, stage), chain, Index(stage), before, edges, render);
    if !ok { return ContextRefused; }
    PlacedNow(before, edges, graph.nodes, graph.edges, source, stage, render);
    return Placed(Refs(chain, Index(stage)) + Optional(context), true);
  }

  lemma PlacedNow(before: map<Id, Node>, edges: seq<Edge<Id, Kind>>, after: map<Id, Node>, edgesAfter: seq<Edge<Id, Kind>>,
                  source: string, stage: Stage, render: Value -> string)
    requires var chain, k, child := Chain(before, edges, source), Index(stage), ChildRun(source, stage);
             && Request(source) in before && HasAll(chain, k) && Run in chain && InStore(chain, before)
             && Request(child) !in before && (forall s :: Clone(child, s) !in before)
             && Request(child) in after && Cloned(before, after, child, chain, k)
             && edgesAfter == edges + ChildEdges(child, chain, edges, k)
                              + ContextEdges(child, Added(edges, child, Context(before, chain, k, render)))
    ensures IsPlaced(before, edges, after, edgesAfter, source, stage, render)
  {
  }

  /** The regime step after all artifacts are linked. */
  method LinkContext(graph: InMemoryGraphStore<Id, Kind>, child: string, chain: map<ChainKey, Id>, k: nat,
                     ghost before: map<Id, Node>, ghost edges: seq<Edge<Id, Kind>>, render: Value -> string)
    returns (context: Option<Id>, ok: bool)
    requires graph.Valid() && k <= ARTIFACTS && Run in chain && HasAll(chain, k) && InStore(chain, before)
    requires Linked(before, edges, graph.nodes, graph.edges, child, chain, k)
    requires Owned(graph.nodes.Keys) && Extends(before, edges, graph.nodes, graph.edges, child)
    modifies graph
    ensures graph.Valid() && Owned(graph.nodes.Keys) && Extends(before, edges, graph.nodes, graph.edges, child)
    ensures context == Context(before, chain, k, render)
    ensures Request(child) in graph.nodes && Cloned(before, graph.nodes, child, chain, k)
    ensures SameRequest(old(graph.nodes), graph.nodes, child)
    ensures ok ==> graph.edges == edges + ChildEdges(child, chain, edges, k) + ContextEdges(child, Added(edges, child, context))
    ensures ok && context.Some? ==> ContextHolds(before, graph.nodes, context.value, child)
    ensures !ok ==> Regime(child) in before
  {
    LinkedParts(before, edges, graph.nodes, graph.edges, child, chain, k);
    hide Linked, InMemoryGraphStore.Valid, RegimeOf, ChildEdges, Owned, Extends, Cloned, ContextProps, Added, AfterMerge, Context;
    if k < 2 {
      NoContext(before, edges, child, chain, k, render);
      return None, true;
    }
    assert Artifact(1) == MarketData;
    hide Artifact, HasAll, InStore;
    ghost var nodes, links := graph.nodes, graph.edges;
    ContextUnchanged(before, nodes, child, chain, k, render);
    SameAdded(edges, child, chain, k, Context(before, chain, k, render));
    context, ok := LinkRegime(graph, child, chain[At(MarketData)], render);
    ContextDone(before, edges, nodes, links, graph.nodes, child, chain, k, context, ok);
    hide ContextHolds;
    if ok && context.Some? {
      ContextStays(before, nodes, child, chain, k, context.value);
      ContextWritten(before, nodes, child, context.value);
    }
  }

  lemma ContextStays(before: map<Id, Node>, nodes: map<Id, Node>, child: string, chain: map<ChainKey, Id>, k: nat, context: Id)
    requires k <= ARTIFACTS && HasAll(chain, k) && InStore(chain, before)
    requires Cloned(before, nodes, child, chain, k) && ContextUntouched(before, nodes, child)
    requires context in nodes && context.Regime?
    ensures context in before && nodes[context] == before[context]
    ensures Regime(child) in nodes <==> Regime(child) in before
    ensures Regime(child) in before ==> nodes[Regime(child)] == before[Regime(child)]
  {
  }

  lemma ContextDone(before: map<Id, Node>, edges: seq<Edge<Id, Kind>>, nodes: map<Id, Node>, links: seq<Edge<Id, Kind>>,
                    after: map<Id, Node>, child: string, chain: map<ChainKey, Id>, k: nat, context: Option<Id>, ok: bool)
    requires k <= ARTIFACTS && HasAll(chain, k) && InStore(chain, before) && Request(child) in nodes
    requires Cloned(before, nodes, child, chain, k) && ContextUntouched(before, nodes, child)
    requires Owned(nodes.Keys) && Extends(before, edges, nodes, links, child)
    requires context.None? ==> ok && after == nodes
    requires context.Some? ==> context.value in nodes
    requires context.Some? ==>
      var m := Merge(Regime(child), ContextProps(nodes, context.value, child), 1);
      after == AfterMerge(nodes, m) && (ok <==> MergeAccepted(nodes, m))
    ensures Owned(after.Keys) && Cloned(before, after, child, chain, k) && Request(child) in after
    ensures SameRequest(nodes, after, child)
    ensures Extends(before, edges, after, links + (if ok then ContextEdges(child, Added(links, child, context)) else []), child)
    ensures !ok ==> Regime(child) in before
  {
    hide ContextProps, AfterMerge, MergeAccepted, Cloned, Extends, Owned, Added;
    if context.Some? {
      var m := Merge(Regime(child), ContextProps(nodes, context.value, child), 1);
      ContextKeeps(before, edges, nodes, links, m, child, chain, k, if ok then Added(links, child, context) else None);
      FreshAccepted(nodes, m);
      OnlyContextMerged(nodes, m, child);
    } else {
      assert Added(links, child, None) == None by { NoneAdded(links, child); }
      assert links + [] == links;
    }
  }

  lemma OnlyContextMerged(nodes: map<Id, Node>, m: Merge<Id>, child: string)
    requires m.id == Regime(child)
    ensures SameRequest(nodes, AfterMerge(nodes, m), child)
  {
    hide MergeAccepted, MergedNode;
  }

  lemma NoneAdded(edges: seq<Edge<Id, Kind>>, child: string)
    ensures Added(edges, child, None) == None
  {
  }

  lemma LinkedParts(before: map<Id, Node>, edges: seq<Edge<Id, Kind>>, nodes: map<Id, Node>, links: seq<Edge<Id, Kind>>,
                    child: string, chain: map<ChainKey, Id>, k: nat)
    requires k <= ARTIFACTS && Run in chain && HasAll(chain, k) && InStore(chain, before)
    requires Linked(before, edges, nodes, links, child, chain, k)
    ensures Cloned(before, nodes, child, chain, k) && ContextUntouched(before, nodes, child) && Request(child) in nodes
    ensures links == edges + ChildEdges(child, chain, edges, k)
    ensures Request(child) !in before && forall s :: Clone(child, s) !in before
  {
  }

  lemma NoContext(before: map<Id, Node>, edges: seq<Edge<Id, Kind>>, child: string, chain: map<ChainKey, Id>, k: nat,
                  render: Value -> string)
    requires k < 2 && Run in chain && HasAll(chain, k) && InStore(chain, before)
    ensures Context(before, chain, k, render) == None
    ensures edges + ChildEdges(child, chain, edges, k)
         == edges + ChildEdges(child, chain, edges, k) + ContextEdges(child, Added(edges, child, None))
  {
  }

  lemma FreshAccepted(nodes: map<Id, Node>, m: Merge<Id>)
    requires m.schemaVersion == 1
    ensures m.id !in nodes ==> MergeAccepted(nodes, m)
  {
  }

  lemma ContextUnchanged(before: map<Id, Node>, nodes: map<Id, Node>, child: string, chain: map<ChainKey, Id>, k: nat,
                         render: Value -> string)
    requires 2 <= k <= ARTIFACTS && HasAll(chain, k) && InStore(chain, before)
    requires Cloned(before, nodes, child, chain, k) && ContextUntouched(before, nodes, child)
    ensures Artifact(1) == MarketData && chain[At(MarketData)] in nodes
    ensures RegimeOf(nodes, chain[At(MarketData)], render) == Context(before, chain, k, render)
  {
    hide LinkedProps, FreezeProps, MarketRun;
    assert Artifact(1) == MarketData;
  }

  /** The child's own edges do not link its context. */
  lemma SameAdded(edges: seq<Edge<Id, Kind>>, child: string, chain: map<ChainKey, Id>, k: nat, context: Option<Id>)
    requires k <= ARTIFACTS && Run in chain && HasAll(chain, k)
    ensures Added(edges + ChildEdges(child, chain, edges, k), child, context) == Added(edges, child, context)
  {
    OwnParents(edges, child, chain, k);
    var links := ChildEdges(child, chain, edges, k);
    var all := edges + links;
    if context.Some? && NoLink(edges, Regime(child), context.value, LinkedFrom) {
      forall i | 0 <= i < |all|
        ensures !(all[i].parent == Regime(child) && all[i].child == context.value && all[i].kind == LinkedFrom)
      {
        if i < |edges| { assert all[i] == edges[i]; } else { assert all[i] in links; }
      }
    }
    if context.Some? && !NoLink(edges, Regime(child), context.value, LinkedFrom) {
      var i :| 0 <= i < |edges| && edges[i].parent == Regime(child) && edges[i].child == context.value && edges[i].kind == LinkedFrom;
      assert all[i] == edges[i];
    }
  }

  lemma {:induction false} OwnParents(edges: seq<Edge<Id, Kind>>, child: string, chain: map<ChainKey, Id>, k: nat)
    requires k <= ARTIFACTS && Run in chain && HasAll(chain, k)
    ensures forall e :: e in ChildEdges(child, chain, edges, k) ==> e.parent.Request? || e.parent.Clone?
  {
    hide ArtifactEdges, SideOf, Artifact;
    if k > 0 {
      var s := Artifact(k - 1);
      OwnParents(edges, child, chain, k - 1);
      ArtifactParents(child, chain[At(s)], s, SideOf(edges, chain[At(s)], s));
    }
  }

  lemma ArtifactParents(child: string, source: Id, s: Stage, side: Option<Id>)
    ensures forall e :: e in ArtifactEdges(child, source, s, side) ==> e.parent.Request? || e.parent.Clone?
  {
  }

  lemma ContextKeeps(before: map<Id, Node>, edges: seq<Edge<Id, Kind>>, nodes: map<Id, Node>, links: seq<Edge<Id, Kind>>,
                     m: Merge<Id>, child: string, chain: map<ChainKey, Id>, k: nat, context: Option<Id>)
    requires k <= ARTIFACTS && HasAll(chain, k) && InStore(chain, before) && Request(child) in nodes
    requires Cloned(before, nodes, child, chain, k) && m.id == Regime(child)
    requires Owned(nodes.Keys) && Extends(before, edges, nodes, links, child)
    ensures var after := AfterMerge(nodes, m);
            && Owned(after.Keys) && Cloned(before, after, child, chain, k) && Request(child) in after
            && Extends(before, edges, after, links + ContextEdges(child, context), child)
  {
    hide LinkedProps, FreezeProps, MergeAccepted, MergedNode;
  }
}
