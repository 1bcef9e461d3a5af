/** The in-memory graph store (`kernel/graph_memory.py`): nodes merged under the append-only rule,
    edges between stored nodes, bounded walks, and what any run of merges keeps. */
module GraphStore {
  import opened Options
  import opened Props
  import opened Traversal
  import opened CreatedAt

  datatype Node = Node(props: Props, schemaVersion: int)

  datatype Error<N> = BadVersion | VersionChanged | Overwritten(name: string) | Missing(id: N)

  datatype Result<+T, +E> = Ok(value: T) | Err(error: E)

  // ----- one merge, and runs of merges, on the node table --------------------------------------

  datatype Merge<N> = Merge(id: N, props: Props, schemaVersion: int)

  predicate MergeAccepted<N(==)>(nodes: map<N, Node>, m: Merge<N>) {
    && m.schemaVersion >= 1
    && (m.id in nodes ==>
          nodes[m.id].schemaVersion == m.schemaVersion && Accepts(nodes[m.id].props, m.props))
  }

  function MergedNode<N(==)>(nodes: map<N, Node>, m: Merge<N>): Node {
    Node(FreezeProps(if m.id in nodes then Union(nodes[m.id].props, m.props) else m.props), m.schemaVersion)
  }

  /** A refused merge raises and leaves the table alone. */
  function AfterMerge<N(==)>(nodes: map<N, Node>, m: Merge<N>): map<N, Node> {
    if MergeAccepted(nodes, m) then nodes[m.id := MergedNode(nodes, m)] else nodes
  }

  function AfterMerges<N(==)>(nodes: map<N, Node>, run: seq<Merge<N>>): map<N, Node> {
    if run == [] then nodes else AfterMerge(AfterMerges(nodes, run[..|run| - 1]), run[|run| - 1])
  }

  /** Between `before` and `after` a fill that was not yet filled became filled. */
  ghost predicate Completed(before: Props, after: Props, name: string) {
    && name in COMPLETION && HasText(after, STATUS, "filled")
    && (STATUS in before ==> HasText(before, STATUS, "partial"))
  }

  /** `after` keeps every property of `before`, up to one partial fill's completion. */
  ghost predicate Keeps(before: Props, after: Props) {
    forall name :: name in before ==>
      name in after && (PyEqual(before[name], after[name]) || Completed(before, after, name))
  }

  lemma TextIsItself(a: Value, b: Value)
    requires PyEqual(a, b) && (a.Text? || b.Text?)
    ensures a == b
  {
  }

  lemma MergeKeeps(existing: Props, incoming: Props)
    requires Accepts(existing, incoming)
    ensures var after := FreezeProps(Union(existing, incoming));
            && Keeps(existing, after)
            && (forall name :: name in existing && !PyEqual(existing[name], after[name]) ==>
                  HasText(existing, STATUS, "partial"))
  {
    var after := FreezeProps(Union(existing, incoming));
    forall name | name in existing
      ensures PyEqual(existing[name], after[name])
              || (Completed(existing, after, name) && HasText(existing, STATUS, "partial"))
    {
      FreezeIdempotent(existing[name]);
      if name in incoming {
        FreezeIdempotent(incoming[name]);
        assert !Refused(existing, incoming, name);
        if CompletesPartial(existing, incoming) { assert STATUS in incoming; }
      }
    }
  }

  lemma KeepsReflexive(p: Props)
    ensures Keeps(p, p)
  {
  }

  lemma KeepsTransitive(a: Props, b: Props, c: Props)
    requires Keeps(a, b) && Keeps(b, c)
    ensures Keeps(a, c)
  {
    hide Freeze, Numeric;
    forall name | name in a ensures name in c && (PyEqual(a[name], c[name]) || Completed(a, c, name)) {
      StatusSettles(a, b, c);
    }
  }

  /** A filled status stays; a partial one stays or becomes filled. */
  lemma StatusSettles(a: Props, b: Props, c: Props)
    requires Keeps(a, b) && Keeps(b, c)
    ensures HasText(b, STATUS, "filled") ==> HasText(c, STATUS, "filled") && !HasText(b, STATUS, "partial")
    ensures HasText(b, STATUS, "partial") && STATUS in a ==> HasText(a, STATUS, "partial")
  {
    assert "partial" != "filled";
    if STATUS in a && PyEqual(a[STATUS], b[STATUS]) && (a[STATUS].Text? || b[STATUS].Text?) { TextIsItself(a[STATUS], b[STATUS]); }
    if STATUS in b && PyEqual(b[STATUS], c[STATUS]) && (b[STATUS].Text? || c[STATUS].Text?) { TextIsItself(b[STATUS], c[STATUS]); }
  }

  lemma {:induction false} RunKeeps<N(!new)>(nodes: map<N, Node>, run: seq<Merge<N>>, i: nat, j: nat, id: N)
    requires i <= j <= |run| && id in AfterMerges(nodes, run[..i])
    ensures id in AfterMerges(nodes, run[..j])
    ensures Keeps(AfterMerges(nodes, run[..i])[id].props, AfterMerges(nodes, run[..j])[id].props)
  {
    if i == j {
      KeepsReflexive(AfterMerges(nodes, run[..i])[id].props);
    } else {
      RunKeeps(nodes, run, i, j - 1, id);
      assert run[..j][..j - 1] == run[..j - 1];
      var before, m := AfterMerges(nodes, run[..j - 1]), run[j - 1];
      if MergeAccepted(before, m) && m.id == id {
        MergeKeeps(before[id].props, m.props);
      } else {
        KeepsReflexive(before[id].props);
      }
      KeepsTransitive(AfterMerges(nodes, run[..i])[id].props, before[id].props, AfterMerges(nodes, run[..j])[id].props);
    }
  }

  /** Over any run of merges, a property once set never goes away, changes value at most once, and
      then only as one of the four completion properties of a partial fill that became filled. */
  lemma PropertyChangesAtMostOnce<N(!new)>(nodes: map<N, Node>, run: seq<Merge<N>>, i: nat, j: nat, k: nat, id: N, name: string)
    requires i <= j <= k <= |run|
    requires id in AfterMerges(nodes, run[..i]) && name in AfterMerges(nodes, run[..i])[id].props
    ensures id in AfterMerges(nodes, run[..j]) && id in AfterMerges(nodes, run[..k])
    ensures var a, b, c := AfterMerges(nodes, run[..i])[id].props, AfterMerges(nodes, run[..j])[id].props,
                           AfterMerges(nodes, run[..k])[id].props;
            && name in b && name in c
            && (!PyEqual(a[name], b[name]) ==> Completed(a, b, name) && PyEqual(b[name], c[name]))
            && (!PyEqual(a[name], b[name]) && j == i + 1 ==> HasText(a, STATUS, "partial"))
  {
    RunKeeps(nodes, run, i, j, id);
    RunKeeps(nodes, run, j, k, id);
    var a, b, c := AfterMerges(nodes, run[..i]), AfterMerges(nodes, run[..j]), AfterMerges(nodes, run[..k]);
    AtMostOneChange(a[id].props, b[id].props, c[id].props, name);
    if j == i + 1 {
      assert run[..j][..i] == run[..i];
      assert b == AfterMerge(a, run[i]);
      hide AfterMerges, Keeps, HasText;
      StepFindsPartial(a, run[i], id, name);
    }
  }

  /** Kept twice over, a property changes in at most one of the two stretches. */
  lemma AtMostOneChange(a: Props, b: Props, c: Props, name: string)
    requires Keeps(a, b) && Keeps(b, c) && name in a
    ensures name in b && name in c
    ensures !PyEqual(a[name], b[name]) ==> Completed(a, b, name) && PyEqual(b[name], c[name])
  {
    StatusSettles(a, b, c);
    assert "partial" != "filled";
    hide PyEqual;
  }

  /** The merge that changes a property found the fill partial. */
  lemma StepFindsPartial<N(!new)>(nodes: map<N, Node>, m: Merge<N>, id: N, name: string)
    requires id in nodes && name in nodes[id].props
    ensures id in AfterMerge(nodes, m) && name in AfterMerge(nodes, m)[id].props
    ensures !PyEqual(nodes[id].props[name], AfterMerge(nodes, m)[id].props[name]) ==> HasText(nodes[id].props, STATUS, "partial")
  {
    hide PyEqual, Accepts, HasText, Union, FreezeProps;
    if MergeAccepted(nodes, m) && m.id == id {
      MergeKeeps(nodes[id].props, m.props);
      assert AfterMerge(nodes, m)[id].props == FreezeProps(Union(nodes[id].props, m.props));
    } else {
      SameIsEqual(nodes[id].props[name]);
    }
  }

  lemma SameIsEqual(v: Value)
    ensures PyEqual(v, v)
  {
  }

  // ----- the same run on the SQL backend -------------------------------------------------------

  /** The props column of one row after a run of upserts; a refused one leaves it alone. */
  function AfterUpserts(row: Props, run: seq<Props>): Props {
    if run == [] then row
    else
      var r := AfterUpserts(row, run[..|run| - 1]);
      if SqlAccepts(r, run[|run| - 1]) then SqlUnion(r, run[|run| - 1]) else r
  }

  /** A conflict the SQL backend sees. */
  predicate JsonConflict(existing: Props, incoming: Props, name: string) {
    name in existing && name in incoming && !JsonEqual(existing[name], incoming[name])
  }

  /** An accepted upsert keeps every property, up to a partial fill's completion, exactly when its
      exemption is known or it meets no conflict. */
  lemma SqlStepKeepsExactly(existing: Props, incoming: Props)
    requires SqlAccepts(existing, incoming)
    ensures (forall name :: name in existing ==>
               JsonEqual(existing[name], SqlUnion(existing, incoming)[name])
               || (name in COMPLETION && CompletesPartial(existing, incoming)))
            <==> SqlCompletes(existing, incoming) != Unknown || forall name :: !JsonConflict(existing, incoming, name)
  {
    ConflictCases(existing, incoming);
    var after := SqlUnion(existing, incoming);
    forall name | name in existing
      ensures JsonEqual(existing[name], after[name]) <==> !JsonConflict(existing, incoming, name)
      ensures JsonConflict(existing, incoming, name) ==>
        name in COMPLETION && (SqlCompletes(existing, incoming) == Unknown || CompletesPartial(existing, incoming))
    {
      FreezeIdempotent(existing[name]);
      if name in incoming {
        FreezeIdempotent(incoming[name]);
        assert SqlConflict(existing, incoming, name) != True;
      }
    }
    hide Freeze, SqlConflict;
    if SqlCompletes(existing, incoming) == Unknown {
      assert !CompletesPartial(existing, incoming);
      assert forall name :: JsonConflict(existing, incoming, name) ==> name in existing;
    }
  }

  /** `Keeps` on the JSON images, which tell a boolean from the number it equals in Python. */
  ghost predicate JsonKeeps(before: Props, after: Props) {
    forall name :: name in before ==>
      name in after && (JsonEqual(before[name], after[name]) || Completed(before, after, name))
  }

  lemma JsonKept(before: Props, after: Props)
    requires JsonKeeps(before, after)
    ensures Keeps(before, after)
  {
  }

  lemma JsonKeepsTransitive(a: Props, b: Props, c: Props)
    requires JsonKeeps(a, b) && JsonKeeps(b, c)
    ensures JsonKeeps(a, c)
  {
    hide Freeze, Numeric;
    JsonKept(a, b);
    JsonKept(b, c);
    StatusSettles(a, b, c);
  }

  lemma SqlMergeKeeps(existing: Props, incoming: Props)
    requires SqlAccepts(existing, incoming) && SqlCompletes(existing, incoming) != Unknown
    ensures JsonKeeps(existing, SqlUnion(existing, incoming))
  {
    SqlStepKeepsExactly(existing, incoming);
    var after := SqlUnion(existing, incoming);
    assert CompletesPartial(existing, incoming) ==> HasText(after, STATUS, "filled");
    forall name | name in existing
      ensures name in after && (JsonEqual(existing[name], after[name]) || Completed(existing, after, name))
    {
    }
  }

  predicate HasStatus(p: Props) { ArrowText(p, STATUS) != SqlNull }

  /** What a caller can keep: a status on the row and on everything written over it. */
  ghost predicate StatusThroughout(row: Props, run: seq<Props>) {
    HasStatus(row) && forall i :: 0 <= i < |run| ==> HasStatus(run[i])
  }

  lemma {:induction false} SqlRunKeeps(row: Props, run: seq<Props>, i: nat, j: nat)
    requires StatusThroughout(row, run) && i <= j <= |run|
    ensures JsonKeeps(AfterUpserts(row, run[..i]), AfterUpserts(row, run[..j]))
    decreases j
  {
    hide AfterUpserts, JsonKeeps, StatusThroughout, HasStatus;
    if i < j {
      SqlRunKeeps(row, run, i, j - 1);
      UpsertKeeps(row, run, j);
      JsonKeepsTransitive(AfterUpserts(row, run[..i]), AfterUpserts(row, run[..j - 1]), AfterUpserts(row, run[..j]));
    } else {
      JsonKeepsReflexive(AfterUpserts(row, run[..i]));
    }
  }

  lemma JsonKeepsReflexive(p: Props)
    ensures JsonKeeps(p, p)
  {
  }

  lemma UpsertKeeps(row: Props, run: seq<Props>, j: nat)
    requires StatusThroughout(row, run) && 0 < j <= |run|
    ensures JsonKeeps(AfterUpserts(row, run[..j - 1]), AfterUpserts(row, run[..j]))
  {
    StatusHolds(row, run, j - 1);
    assert run[..j][..j - 1] == run[..j - 1];
    var before, m := AfterUpserts(row, run[..j - 1]), run[j - 1];
    StatusStays(before, m);
    JsonKeepsReflexive(before);
    hide JsonKeeps, SqlAccepts, SqlUnion, SqlCompletes, HasStatus;
    if SqlAccepts(before, m) { SqlMergeKeeps(before, m); }
  }

  /** A status once there stays there. */
  lemma {:induction false} StatusHolds(row: Props, run: seq<Props>, j: nat)
    requires StatusThroughout(row, run) && j <= |run|
    ensures HasStatus(AfterUpserts(row, run[..j]))
  {
    hide HasStatus, SqlAccepts, SqlUnion;
    if j > 0 {
      assert run[..j][..j - 1] == run[..j - 1];
      StatusHolds(row, run, j - 1);
      StatusStays(AfterUpserts(row, run[..j - 1]), run[j - 1]);
    }
  }

  lemma StatusStays(existing: Props, incoming: Props)
    requires HasStatus(existing) && HasStatus(incoming)
    ensures SqlCompletes(existing, incoming) != Unknown && HasStatus(SqlUnion(existing, incoming))
  {
  }

  /** With a status throughout, a SQL row too changes a property at most once, and then only as a
      completion property of a fill that became filled. */
  lemma SqlPropertyChangesAtMostOnce(row: Props, run: seq<Props>, i: nat, j: nat, k: nat, name: string)
    requires StatusThroughout(row, run) && i <= j <= k <= |run| && name in AfterUpserts(row, run[..i])
    ensures var a, b, c := AfterUpserts(row, run[..i]), AfterUpserts(row, run[..j]), AfterUpserts(row, run[..k]);
            && name in b && name in c
            && (!JsonEqual(a[name], b[name]) ==> Completed(a, b, name) && JsonEqual(b[name], c[name]))
  {
    SqlRunKeeps(row, run, i, j);
    SqlRunKeeps(row, run, j, k);
    AtMostOneJsonChange(AfterUpserts(row, run[..i]), AfterUpserts(row, run[..j]), AfterUpserts(row, run[..k]), name);
  }

  lemma AtMostOneJsonChange(a: Props, b: Props, c: Props, name: string)
    requires JsonKeeps(a, b) && JsonKeeps(b, c) && name in a
    ensures name in b && name in c
    ensures !JsonEqual(a[name], b[name]) ==> Completed(a, b, name) && JsonEqual(b[name], c[name])
  {
    JsonKept(a, b);
    JsonKept(b, c);
    StatusSettles(a, b, c);
    assert "partial" != "filled";
    hide JsonEqual, Keeps;
  }

  /** Without a status the SQL backend does not keep that promise: a completion property can
      take any number of values, one after another. */
  lemma {:induction false} SqlRowDrifts(prices: seq<real>)
    requires prices != []
    ensures var run := seq(|prices|, i requires 0 <= i < |prices| => Priced(prices[i]));
            AfterUpserts(Priced(0.0), run) == Priced(prices[|prices| - 1])
  {
    var run := seq(|prices|, i requires 0 <= i < |prices| => Priced(prices[i]));
    var most := seq(|prices| - 1, i requires 0 <= i < |prices| - 1 => Priced(prices[i]));
    assert run[..|run| - 1] == most;
    var last := if |prices| == 1 then 0.0 else prices[|prices| - 2];
    if |prices| > 1 {
      SqlRowDrifts(prices[..|prices| - 1]);
      assert most == seq(|prices| - 1, i requires 0 <= i < |prices| - 1 => Priced(prices[..|prices| - 1][i]));
    }
    PriceOverwritten(last, prices[|prices| - 1]);
  }

  function Priced(price: real): Props { map["broker_price_cents" := Num(price)] }

  lemma PriceOverwritten(a: real, b: real)
    ensures SqlAccepts(Priced(a), Priced(b)) && SqlUnion(Priced(a), Priced(b)) == Priced(b)
  {
    assert |STATUS| != |"broker_price_cents"|;
    assert SqlCompletes(Priced(a), Priced(b)) == Unknown;
  }

  // ----- the store -----------------------------------------------------------------------------

  class InMemoryGraphStore<N(==, !new), T(==, !new)> {
    var nodes: map<N, Node>
    /** Insertion order of the node table, which is the order nodes are listed in. */
    var order: seq<N>
    var edges: seq<Edge<N, T>>

    ghost predicate Valid()
      reads this
    {
      && NoDuplicates(order)
      && (forall id :: id in order <==> id in nodes)
      && Closed(edges, nodes.Keys)
      && (forall i, j :: 0 <= i < j < |edges| ==> !SameEdge(edges[i], edges[j]))
    }

    static predicate SameEdge(a: Edge<N, T>, b: Edge<N, T>) {
      a.parent == b.parent && a.child == b.child && a.kind == b.kind
    }

    constructor ()
      ensures Valid() && nodes == map[] && edges == []
    {
      nodes, order, edges := map[], [], [];
    }

    method MergeNode(id: N, props: Props, names: seq<string>, schemaVersion: int) returns (r: Result<Node, Error<N>>)
      requires Valid() && Enumerates(names, props)
      modifies this`nodes, this`order
      ensures Valid()
      ensures nodes == AfterMerge(old(nodes), Merge(id, props, schemaVersion))
      ensures order == if id in old(nodes) || id !in nodes then old(order) else old(order) + [id]
      ensures r.Ok? <==> MergeAccepted(old(nodes), Merge(id, props, schemaVersion))
      ensures r.Ok? ==> id in nodes && r.value == nodes[id]
      ensures r.Err? && r.error.Overwritten? ==>
                id in old(nodes) && Refused(old(nodes)[id].props, props, r.error.name)
    {
      if schemaVersion < 1 { return Err(BadVersion); }
      var node: Node;
      if id !in nodes {
        node := Node(FreezeProps(props), schemaVersion);
        order := order + [id];
      } else {
        if nodes[id].schemaVersion != schemaVersion { return Err(VersionChanged); }
        var appended := AppendProps(nodes[id].props, props, names);
        if appended.Overwrite? { return Err(Overwritten(appended.name)); }
        node := Node(FreezeProps(appended.props), schemaVersion);
      }
      nodes := nodes[id := node];
      return Ok(node);
    }

    /** The first edge of a (parent, child, kind) stays; a later one is dropped with its props. */
    method AddEdge(parent: N, child: N, kind: T, props: Props) returns (r: Result<(), Error<N>>)
      requires Valid()
      modifies this`edges
      ensures Valid()
      ensures r.Ok? <==> parent in nodes && child in nodes
      ensures var e := Edge(parent, child, kind, FreezeProps(props));
              edges == if r.Ok? && forall i :: 0 <= i < |old(edges)| ==>
                            !(old(edges)[i].parent == parent && old(edges)[i].child == child && old(edges)[i].kind == kind)
                       then old(edges) + [e] else old(edges)
    {
      if parent !in nodes { return Err(Missing(parent)); }
      if child !in nodes { return Err(Missing(child)); }
      var e := Edge(parent, child, kind, FreezeProps(props));
      for i := 0 to |edges|
        invariant edges == old(edges)
        invariant forall j :: 0 <= j < i ==> !SameEdge(edges[j], e)
      {
        if SameEdge(edges[i], e) { return Ok(()); }
      }
      edges := edges + [e];
      return Ok(());
    }

    /** `_walk`, level by level; `found` nodes are looked up, which `Valid()` makes safe. */
    method WalkFrom(start: N, maxDepth: int, v: View<T>) returns (out: seq<N>)
      requires Valid()
      ensures out == Walk(edges, v, start, maxDepth)
      ensures forall x :: x in out ==> x in nodes
    {
      ghost var ids := nodes.Keys;
      assert forall i :: 0 <= i < |edges| ==> Target(edges[i], v) in ids;
      out := [];
      assert AllIn(out, ids);
      hide Valid, Closed, NoDuplicates, Allowed, Source, Target, Level, Levels, Set, AllIn;
      if maxDepth < 1 {
        AllInMeans(out, ids);
        return;
      }
      var links := edges;
      var seen, frontier := {start}, [start];
      var depth := 0;
      while depth < maxDepth
        invariant 0 <= depth <= maxDepth && frontier != []
        invariant Walk(links, v, start, maxDepth) == out + Levels(links, v, frontier, seen, maxDepth - depth)
        invariant AllIn(out, ids)
      {
        var next: seq<N> := [];
        ghost var before := seen;
        EmptyLevel(links, v, Set(frontier), before, ids);
        for i := 0 to |links|
          invariant next == Level(links[..i], v, Set(frontier), before)
          invariant seen == before + Set(next)
          invariant AllIn(next, ids)
        {
          var e := links[i];
          LevelOfOneMore(links, v, frontier, before, i);
          AllInOneMore(next, Target(e, v), ids);
          if Source(e, v) in frontier && Allowed(e, v) && Target(e, v) !in seen {
            seen, next := seen + {Target(e, v)}, next + [Target(e, v)];
          }
        }
        assert links[..|links|] == links;
        LevelsUnfold(links, v, frontier, before, maxDepth - depth, out);
        AllInBoth(out, next, ids);
        out := out + next;
        frontier := next;
        depth := depth + 1;
        if frontier == [] { break; }
      }
      LevelsEnd(links, v, frontier, seen, maxDepth - depth, out);
      AllInMeans(out, ids);
    }

    /** Keys, in list order, of the nodes `wanted` names that have no edge of `kind` and pass the bound. */
    method KeysWithoutEdge(wanted: N -> bool, kind: T, downstream: bool, bound: Option<string>) returns (keys: seq<N>)
      requires Valid()
      ensures keys == Kept(order, IsKey(nodes, edges, wanted, kind, downstream, bound))
    {
      var linked: set<N> := {};
      for i := 0 to |edges|
        invariant forall x :: x in linked <==> !Unlinked(edges[..i], kind, downstream, x)
      {
        if edges[i].kind == kind {
          linked := linked + {if downstream then edges[i].parent else edges[i].child};
        }
      }
      assert edges[..|edges|] == edges;
      keys := [];
      ghost var isKey := IsKey(nodes, edges, wanted, kind, downstream, bound);
      for i := 0 to |order|
        invariant keys == Kept(order[..i], isKey)
      {
        assert order[..i + 1][..i] == order[..i];
        assert order[i] in order;
        if wanted(order[i]) && order[i] !in linked && OnOrAfter(nodes[order[i]].props, bound) {
          keys := keys + [order[i]];
        }
      }
      assert order[..|order|] == order;
    }
  }

  // ----- the frontier loop, step by step -------------------------------------------------------

  ghost predicate AllIn<N>(s: seq<N>, ids: set<N>) { forall x :: x in s ==> x in ids }

  lemma AllInMeans<N>(s: seq<N>, ids: set<N>)
    requires AllIn(s, ids)
    ensures forall x :: x in s ==> x in ids
  {
  }

  lemma AllInOneMore<N>(s: seq<N>, x: N, ids: set<N>)
    requires AllIn(s, ids) && x in ids
    ensures AllIn(s + [x], ids)
  {
  }

  lemma AllInBoth<N>(s: seq<N>, t: seq<N>, ids: set<N>)
    requires AllIn(s, ids) && AllIn(t, ids)
    ensures AllIn(s + t, ids)
  {
  }

  lemma EmptyLevel<N, T>(edges: seq<Edge<N, T>>, v: View<T>, frontier: set<N>, seen: set<N>, ids: set<N>)
    ensures Level(edges[..0], v, frontier, seen) == [] && seen == seen + Set<N>([]) && AllIn([], ids)
  {
  }

  lemma LevelOfOneMore<N, T>(edges: seq<Edge<N, T>>, v: View<T>, frontier: seq<N>, seen: set<N>, i: nat)
    requires i < |edges|
    ensures var e, found := edges[i], Level(edges[..i], v, Set(frontier), seen);
            && (forall x :: x in Set(frontier) <==> x in frontier)
            && Level(edges[..i + 1], v, Set(frontier), seen)
               == (if Source(e, v) in frontier && Allowed(e, v) && Target(e, v) !in seen + Set(found)
                   then found + [Target(e, v)] else found)
            && Set(found + [Target(e, v)]) == Set(found) + {Target(e, v)}
  {
    assert edges[..i + 1][..i] == edges[..i];
  }

  lemma LevelsUnfold<N, T>(edges: seq<Edge<N, T>>, v: View<T>, frontier: seq<N>, seen: set<N>, depth: nat, out: seq<N>)
    requires depth > 0 && frontier != []
    ensures var next := Level(edges, v, Set(frontier), seen);
            out + Levels(edges, v, frontier, seen, depth) == (out + next) + Levels(edges, v, next, seen + Set(next), depth - 1)
  {
  }

  lemma LevelsEnd<N, T>(edges: seq<Edge<N, T>>, v: View<T>, frontier: seq<N>, seen: set<N>, depth: nat, out: seq<N>)
    ensures depth == 0 || frontier == [] ==> out + Levels(edges, v, frontier, seen, depth) == out
  {
  }

  ghost predicate Unlinked<N, T>(edges: seq<Edge<N, T>>, kind: T, downstream: bool, x: N) {
    forall i :: 0 <= i < |edges| && edges[i].kind == kind ==>
      (if downstream then edges[i].parent else edges[i].child) != x
  }

  ghost function IsKey<N, T>(nodes: map<N, Node>, edges: seq<Edge<N, T>>, wanted: N -> bool, kind: T,
                             downstream: bool, bound: Option<string>): N -> bool
  {
    x => wanted(x) && Unlinked(edges, kind, downstream, x) && x in nodes && OnOrAfter(nodes[x].props, bound)
  }

  /** The elements of `s` that satisfy `p`, in order. */
  ghost function Kept<N>(s: seq<N>, p: N -> bool): seq<N> {
    if s == [] then []
    else Kept(s[..|s| - 1], p) + if p(s[|s| - 1]) then [s[|s| - 1]] else []
  }
}
