/** Bounded graph traversal, stated three ways: by the walks that exist, by the breadth-first loop
    of the in-memory backend (`kernel/graph_memory.py`), and by the recursive query with path
    pruning of the PostgreSQL backend (`kernel/graph_postgres_queries.py`). */
module Traversal {
  import opened Props
  import opened CreatedAt

  datatype Edge<N, T> = Edge(parent: N, child: N, kind: T, props: Props)

  datatype Filter<T> = AnyKind | Kinds(kinds: set<T>)

  /** How one traversal reads the edges: which kinds it follows, and whether downstream. */
  datatype View<T> = View(filter: Filter<T>, downstream: bool)

  predicate Allowed<N, T(==)>(e: Edge<N, T>, v: View<T>) {
    v.filter.AnyKind? || e.kind in v.filter.kinds
  }

  function Source<N, T>(e: Edge<N, T>, v: View<T>): N {
    if v.downstream then e.parent else e.child
  }

  function Target<N, T>(e: Edge<N, T>, v: View<T>): N {
    if v.downstream then e.child else e.parent
  }

  // ----- walks: what a traversal is about ------------------------------------------------------

  ghost predicate Step<N, T>(edges: seq<Edge<N, T>>, v: View<T>, a: N, b: N) {
    exists i :: 0 <= i < |edges| && Allowed(edges[i], v) && Source(edges[i], v) == a && Target(edges[i], v) == b
  }

  /** `p` holds the nodes after `start` of a walk along allowed edges. */
  ghost predicate IsWalk<N, T>(edges: seq<Edge<N, T>>, v: View<T>, start: N, p: seq<N>) {
    forall i :: 0 <= i < |p| ==> Step(edges, v, End(start, p[..i]), p[i])
  }

  function End<N>(start: N, p: seq<N>): N {
    if p == [] then start else p[|p| - 1]
  }

  ghost predicate Reaches<N(!new), T>(edges: seq<Edge<N, T>>, v: View<T>, start: N, x: N, d: nat) {
    exists p :: IsWalk(edges, v, start, p) && |p| == d && End(start, p) == x
  }

  /** `d` is the length of a shortest walk from `start` to `x`. */
  ghost predicate Distance<N(!new), T>(edges: seq<Edge<N, T>>, v: View<T>, start: N, x: N, d: nat) {
    Reaches(edges, v, start, x, d) && forall c: nat :: c < d ==> !Reaches(edges, v, start, x, c)
  }

  lemma ReachesNext<N(!new), T>(edges: seq<Edge<N, T>>, v: View<T>, start: N, x: N, y: N, d: nat)
    requires Reaches(edges, v, start, x, d) && Step(edges, v, x, y)
    ensures Reaches(edges, v, start, y, d + 1)
  {
    hide Step;
    var p :| IsWalk(edges, v, start, p) && |p| == d && End(start, p) == x;
    var q := p + [y];
    forall i | 0 <= i < |q| ensures Step(edges, v, End(start, q[..i]), q[i]) {
      assert q[..i] == p[..i];
      if i == d { assert p[..i] == p; }
    }
    assert IsWalk(edges, v, start, q);
  }

  lemma ReachesBack<N(!new), T>(edges: seq<Edge<N, T>>, v: View<T>, start: N, y: N, d: nat) returns (x: N)
    requires Reaches(edges, v, start, y, d + 1)
    ensures Reaches(edges, v, start, x, d) && Step(edges, v, x, y)
  {
    hide Step;
    var p :| IsWalk(edges, v, start, p) && |p| == d + 1 && End(start, p) == y;
    var most := p[..d];
    x := End(start, most);
    forall i | 0 <= i < d ensures Step(edges, v, End(start, most[..i]), most[i]) {
      assert most[..i] == p[..i] && Step(edges, v, End(start, p[..i]), p[i]);
    }
    assert IsWalk(edges, v, start, most);
    assert Step(edges, v, End(start, p[..d]), p[d]);
  }

  // ----- the breadth-first loop ----------------------------------------------------------------

  function Set<N(==)>(s: seq<N>): set<N> { set x | x in s }

  /** One level: the targets the inner loop appends after reading `edges` in order. */
  function Level<N(==), T(==)>(edges: seq<Edge<N, T>>, v: View<T>, frontier: set<N>, seen: set<N>): seq<N> {
    if edges == [] then []
    else
      var e, found := edges[|edges| - 1], Level(edges[..|edges| - 1], v, frontier, seen);
      if Source(e, v) in frontier && Allowed(e, v) && Target(e, v) !in seen && Target(e, v) !in found
      then found + [Target(e, v)]
      else found
  }

  /** The levels that follow `frontier`, up to `depth` of them. */
  function Levels<N(==), T(==)>(edges: seq<Edge<N, T>>, v: View<T>, frontier: seq<N>, seen: set<N>, depth: nat): seq<N>
    decreases depth
  {
    if depth == 0 || frontier == [] then []
    else
      var next := Level(edges, v, Set(frontier), seen);
      next + Levels(edges, v, next, seen + Set(next), depth - 1)
  }

  /** What `_walk` returns. */
  function Walk<N(==), T(==)>(edges: seq<Edge<N, T>>, v: View<T>, start: N, maxDepth: int): seq<N> {
    if maxDepth < 1 then [] else Levels(edges, v, [start], {start}, maxDepth)
  }

  lemma {:induction false} LevelIs<N(!new), T>(edges: seq<Edge<N, T>>, v: View<T>, frontier: set<N>, seen: set<N>)
    ensures var found := Level(edges, v, frontier, seen);
            && NoDuplicates(found)
            && (forall y :: y in found <==> y !in seen && exists x :: x in frontier && Step(edges, v, x, y))
  {
    if edges != [] {
      var most, e := edges[..|edges| - 1], edges[|edges| - 1];
      LevelIs(most, v, frontier, seen);
      forall x, y ensures Step(edges, v, x, y) <==>
          Step(most, v, x, y) || (Allowed(e, v) && Source(e, v) == x && Target(e, v) == y)
      {
        if Step(most, v, x, y) {
          var i :| 0 <= i < |most| && Allowed(most[i], v) && Source(most[i], v) == x && Target(most[i], v) == y;
          assert edges[i] == most[i];
        }
        if Allowed(e, v) && Source(e, v) == x && Target(e, v) == y {
          assert edges[|edges| - 1] == e;
        }
      }
    }
  }

  ghost predicate NoDuplicates<N>(s: seq<N>) {
    forall i, j :: 0 <= i < j < |s| ==> s[i] != s[j]
  }

  /** `seen` is the set of nodes within distance `d`, and `frontier` those at distance exactly `d`. */
  ghost predicate AtLevel<N(!new), T>(edges: seq<Edge<N, T>>, v: View<T>, start: N,
                                      frontier: seq<N>, seen: set<N>, d: nat) {
    && (forall x :: x in frontier <==> Distance(edges, v, start, x, d))
    && (forall x :: x in seen <==> exists c: nat :: c <= d && Distance(edges, v, start, x, c))
  }

  lemma AtStart<N(!new), T>(edges: seq<Edge<N, T>>, v: View<T>, start: N)
    ensures AtLevel(edges, v, start, [start], {start}, 0)
  {
    assert IsWalk(edges, v, start, []);
    assert Distance(edges, v, start, start, 0);
    forall x | Distance(edges, v, start, x, 0) ensures x == start {
      var p: seq<N> :| IsWalk(edges, v, start, p) && |p| == 0 && End(start, p) == x;
    }
  }

  /** A node is at distance d + 1 when a node at distance d steps to it and no nearer one does. */
  lemma DistanceNext<N(!new), T>(edges: seq<Edge<N, T>>, v: View<T>, start: N, y: N, d: nat)
    ensures Distance(edges, v, start, y, d + 1) <==>
            && (exists x :: Distance(edges, v, start, x, d) && Step(edges, v, x, y))
            && !(exists c: nat :: c <= d && Distance(edges, v, start, y, c))
  {
    if Distance(edges, v, start, y, d + 1) {
      var x := ReachesBack(edges, v, start, y, d);
      forall c: nat | c < d ensures !Reaches(edges, v, start, x, c) {
        if Reaches(edges, v, start, x, c) { ReachesNext(edges, v, start, x, y, c); }
      }
      assert Distance(edges, v, start, x, d) && Step(edges, v, x, y);
    }
    if exists x :: Distance(edges, v, start, x, d) && Step(edges, v, x, y) {
      var x :| Distance(edges, v, start, x, d) && Step(edges, v, x, y);
      ReachesNext(edges, v, start, x, y, d);
      if !(exists c: nat :: c <= d && Distance(edges, v, start, y, c)) {
        forall c: nat | c < d + 1 ensures !Reaches(edges, v, start, y, c) {
          if Reaches(edges, v, start, y, c) { var m := LeastReach(edges, v, start, y, c); }
        }
      }
    }
  }

  lemma {:induction false} LeastReach<N(!new), T>(edges: seq<Edge<N, T>>, v: View<T>, start: N, x: N, d: nat) returns (m: nat)
    requires Reaches(edges, v, start, x, d)
    ensures m <= d && Distance(edges, v, start, x, m)
  {
    if c: nat :| c < d && Reaches(edges, v, start, x, c) {
      m := LeastReach(edges, v, start, x, c);
    } else {
      m := d;
    }
  }

  lemma LevelAdvances<N(!new), T>(edges: seq<Edge<N, T>>, v: View<T>, start: N, frontier: seq<N>, seen: set<N>, d: nat)
    requires AtLevel(edges, v, start, frontier, seen, d)
    ensures var next := Level(edges, v, Set(frontier), seen);
            AtLevel(edges, v, start, next, seen + Set(next), d + 1)
  {
    LevelIs(edges, v, Set(frontier), seen);
    forall y ensures y in Level(edges, v, Set(frontier), seen) <==> Distance(edges, v, start, y, d + 1) {
      DistanceNext(edges, v, start, y, d);
    }
  }

  /** When a level is empty, no node is further away. */
  lemma {:induction false} NothingBeyond<N(!new), T>(edges: seq<Edge<N, T>>, v: View<T>, start: N, x: N, d: nat, c: nat)
    requires forall y :: !Distance(edges, v, start, y, d)
    requires d <= c
    ensures !Distance(edges, v, start, x, c)
    decreases c
  {
    if d < c {
      var b: nat := c - 1;
      DistanceNext(edges, v, start, x, b);
      forall y ensures !Distance(edges, v, start, y, b) { NothingBeyond(edges, v, start, y, d, b); }
    }
  }

  /** Sorted by distance: `out` is the concatenation of the levels d + 1, d + 2, ... */
  ghost predicate ByDistance<N(!new), T>(edges: seq<Edge<N, T>>, v: View<T>, start: N, out: seq<N>) {
    forall i, j, c: nat, d: nat ::
      (0 <= i < j < |out| && Distance(edges, v, start, out[i], c) && Distance(edges, v, start, out[j], d)) ==> c <= d
  }

  lemma {:induction false} LevelsAre<N(!new), T>(edges: seq<Edge<N, T>>, v: View<T>, start: N,
                                                 frontier: seq<N>, seen: set<N>, d: nat, depth: nat)
    requires AtLevel(edges, v, start, frontier, seen, d)
    ensures var out := Levels(edges, v, frontier, seen, depth);
            && NoDuplicates(out)
            && (forall x :: x in out <==> exists c: nat :: d < c <= d + depth && Distance(edges, v, start, x, c))
            && ByDistance(edges, v, start, out)
    decreases depth
  {
    hide Distance;
    if depth == 0 {
    } else if frontier == [] {
      forall x, c: nat | d < c ensures !Distance(edges, v, start, x, c) { NothingBeyond(edges, v, start, x, d, c); }
    } else {
      var next := Level(edges, v, Set(frontier), seen);
      LevelIs(edges, v, Set(frontier), seen);
      LevelAdvances(edges, v, start, frontier, seen, d);
      LevelsAre(edges, v, start, next, seen + Set(next), d + 1, depth - 1);
      var rest := Levels(edges, v, next, seen + Set(next), depth - 1);
      NearerFirst(edges, v, start, next, rest, d + 1);
      assert forall x :: x in next + rest <==> x in next || x in rest;
    }
  }

  lemma DistanceUnique<N(!new), T>(edges: seq<Edge<N, T>>, v: View<T>, start: N, x: N, c: nat, d: nat)
    requires Distance(edges, v, start, x, c) && Distance(edges, v, start, x, d)
    ensures c == d
  {
  }

  lemma NearerFirst<N(!new), T>(edges: seq<Edge<N, T>>, v: View<T>, start: N, next: seq<N>, rest: seq<N>, d: nat)
    requires forall x :: x in next ==> Distance(edges, v, start, x, d)
    requires forall x :: x in rest ==> exists c: nat :: d < c && Distance(edges, v, start, x, c)
    requires NoDuplicates(next) && NoDuplicates(rest) && ByDistance(edges, v, start, rest)
    ensures NoDuplicates(next + rest) && ByDistance(edges, v, start, next + rest)
  {
    hide Distance;
    var out := next + rest;
    forall x, c: nat | Distance(edges, v, start, x, c)
      ensures (x in next ==> c == d) && (x in rest ==> d < c)
    {
      if x in next { DistanceUnique(edges, v, start, x, c, d); }
      if x in rest {
        var b: nat :| d < b && Distance(edges, v, start, x, b);
        DistanceUnique(edges, v, start, x, b, c);
      }
    }
    assert forall i :: 0 <= i < |next| ==> out[i] == next[i];
    assert forall i :: |next| <= i < |out| ==> out[i] == rest[i - |next|];
    assert forall x :: x in next && Distance(edges, v, start, x, d) ==> x !in rest;
    assert forall i :: 0 <= i < |next| ==> out[i] in next;
    assert forall i :: |next| <= i < |out| ==> out[i] in rest;
  }

  /** `_walk` returns, each once and nearest first, exactly the nodes other than the start whose
      distance is at most the depth bound. */
  lemma WalkIsTheBall<N(!new), T>(edges: seq<Edge<N, T>>, v: View<T>, start: N, maxDepth: int)
    ensures var out := Walk(edges, v, start, maxDepth);
            && NoDuplicates(out)
            && (forall x :: x in out <==> exists d: nat :: 1 <= d <= maxDepth && Distance(edges, v, start, x, d))
            && start !in out
            && ByDistance(edges, v, start, out)
  {
    AtStart(edges, v, start);
    if maxDepth >= 1 { LevelsAre(edges, v, start, [start], {start}, 0, maxDepth); }
    assert Distance(edges, v, start, start, 0);
  }

  // ----- the order within one depth ------------------------------------------------------------

  ghost predicate Hits<N, T>(e: Edge<N, T>, v: View<T>, frontier: set<N>, y: N) {
    Allowed(e, v) && Source(e, v) in frontier && Target(e, v) == y
  }

  /** An edge hits `x` before any hits `y`. */
  ghost predicate HitsFirst<N, T>(edges: seq<Edge<N, T>>, v: View<T>, frontier: set<N>, x: N, y: N) {
    exists k :: 0 <= k < |edges| && Hits(edges[k], v, frontier, x) && forall m :: 0 <= m <= k ==> !Hits(edges[m], v, frontier, y)
  }

  lemma {:induction false} LevelInEdgeOrder<N(!new), T>(edges: seq<Edge<N, T>>, v: View<T>, frontier: set<N>, seen: set<N>,
                                                         i: nat, j: nat)
    requires i < j < |Level(edges, v, frontier, seen)|
    ensures var found := Level(edges, v, frontier, seen); HitsFirst(edges, v, frontier, found[i], found[j])
  {
    var most, e := edges[..|edges| - 1], edges[|edges| - 1];
    var found, before := Level(edges, v, frontier, seen), Level(most, v, frontier, seen);
    LevelIs(most, v, frontier, seen);
    var x, y := found[i], found[j];
    if j < |before| {
      LevelInEdgeOrder(most, v, frontier, seen, i, j);
      var k :| 0 <= k < |most| && Hits(most[k], v, frontier, x) && forall m :: 0 <= m <= k ==> !Hits(most[m], v, frontier, y);
      assert forall m :: 0 <= m <= k ==> edges[m] == most[m];
    } else {
      assert found == before + [y] && x == before[i] && y !in before;
      forall m | 0 <= m < |most| ensures !Hits(most[m], v, frontier, y) {
        if Hits(most[m], v, frontier, y) { assert Step(most, v, Source(most[m], v), y); }
      }
      assert x in before;
      var s :| s in frontier && Step(most, v, s, x);
      var k :| 0 <= k < |most| && Allowed(most[k], v) && Source(most[k], v) == s && Target(most[k], v) == x;
      assert Hits(most[k], v, frontier, x);
      assert forall m :: 0 <= m <= k ==> edges[m] == most[m];
    }
  }

  /** The edge steps to `x` from a node at distance `d`. */
  ghost predicate Enters<N(!new), T>(edges: seq<Edge<N, T>>, v: View<T>, start: N, e: Edge<N, T>, x: N, d: nat) {
    Allowed(e, v) && Target(e, v) == x && Distance(edges, v, start, Source(e, v), d)
  }

  ghost predicate EntersFirst<N(!new), T>(edges: seq<Edge<N, T>>, v: View<T>, start: N, x: N, y: N, d: nat) {
    exists k :: 0 <= k < |edges| && Enters(edges, v, start, edges[k], x, d)
                && forall m :: 0 <= m <= k ==> !Enters(edges, v, start, edges[m], y, d)
  }

  lemma HitsAreEntries<N(!new), T>(edges: seq<Edge<N, T>>, v: View<T>, start: N, frontier: seq<N>, x: N, y: N, d: nat)
    requires forall z :: z in frontier <==> Distance(edges, v, start, z, d)
    requires HitsFirst(edges, v, Set(frontier), x, y)
    ensures EntersFirst(edges, v, start, x, y, d)
  {
    hide Distance, Allowed;
    var k :| 0 <= k < |edges| && Hits(edges[k], v, Set(frontier), x)
             && forall m :: 0 <= m <= k ==> !Hits(edges[m], v, Set(frontier), y);
    assert Enters(edges, v, start, edges[k], x, d);
  }

  lemma {:induction false} LevelsInEdgeOrder<N(!new), T>(edges: seq<Edge<N, T>>, v: View<T>, start: N, frontier: seq<N>,
                                                          seen: set<N>, d: nat, depth: nat, i: nat, j: nat, c: nat)
    requires AtLevel(edges, v, start, frontier, seen, d)
    requires i < j < |Levels(edges, v, frontier, seen, depth)|
    requires var out := Levels(edges, v, frontier, seen, depth);
             Distance(edges, v, start, out[i], c) && Distance(edges, v, start, out[j], c)
    ensures var out := Levels(edges, v, frontier, seen, depth);
            c > 0 && EntersFirst(edges, v, start, out[i], out[j], c - 1)
    decreases depth
  {
    hide Distance, EntersFirst, HitsFirst;
    var next := Level(edges, v, Set(frontier), seen);
    LevelAdvances(edges, v, start, frontier, seen, d);
    var rest := Levels(edges, v, next, seen + Set(next), depth - 1);
    LevelsAre(edges, v, start, next, seen + Set(next), d + 1, depth - 1);
    var x, y := (next + rest)[i], (next + rest)[j];
    forall b: nat | Distance(edges, v, start, x, b) || Distance(edges, v, start, y, b) ensures b == c {
      if Distance(edges, v, start, x, b) { DistanceUnique(edges, v, start, x, b, c); }
      else { DistanceUnique(edges, v, start, y, b, c); }
    }
    if i < |next| {
      assert x in next && y in next + rest;
      assert (j >= |next| ==> y in rest) && (y in rest ==> j >= |next|);
      LevelInEdgeOrder(edges, v, Set(frontier), seen, i, j);
      HitsAreEntries(edges, v, start, frontier, x, y, d);
    } else {
      LevelsInEdgeOrder(edges, v, start, next, seen + Set(next), d + 1, depth - 1, i - |next|, j - |next|, c);
    }
  }

  /** Nodes of one distance come in the order in which the edges first enter them from the distance before. */
  lemma SameDepthInEdgeOrder<N(!new), T>(edges: seq<Edge<N, T>>, v: View<T>, start: N, maxDepth: int, i: nat, j: nat, d: nat)
    requires i < j < |Walk(edges, v, start, maxDepth)|
    requires var out := Walk(edges, v, start, maxDepth);
             Distance(edges, v, start, out[i], d) && Distance(edges, v, start, out[j], d)
    ensures var out := Walk(edges, v, start, maxDepth);
            d > 0 && EntersFirst(edges, v, start, out[i], out[j], d - 1)
  {
    AtStart(edges, v, start);
    LevelsInEdgeOrder(edges, v, start, [start], {start}, 0, maxDepth, i, j, d);
  }

  // ----- in terms of the edges' own ends -------------------------------------------------------

  /** An edge of a wanted kind has parent `x` and child `y`. */
  ghost predicate Joined<N, T>(edges: seq<Edge<N, T>>, filter: Filter<T>, x: N, y: N) {
    exists e :: e in edges && e.parent == x && e.child == y && (filter.Kinds? ==> e.kind in filter.kinds)
  }

  /** A chain of `d` such edges leads from `x` down to `y`. */
  ghost predicate LeadsTo<N(!new), T>(edges: seq<Edge<N, T>>, filter: Filter<T>, x: N, y: N, d: nat) {
    if d == 0 then x == y else exists z :: LeadsTo(edges, filter, x, z, d - 1) && Joined(edges, filter, z, y)
  }

  lemma StepIsJoined<N, T>(edges: seq<Edge<N, T>>, filter: Filter<T>, x: N, y: N)
    ensures Step(edges, View(filter, true), x, y) <==> Joined(edges, filter, x, y)
    ensures Step(edges, View(filter, false), y, x) <==> Joined(edges, filter, x, y)
  {
    if Joined(edges, filter, x, y) {
      var e :| e in edges && e.parent == x && e.child == y && (filter.Kinds? ==> e.kind in filter.kinds);
      var i :| 0 <= i < |edges| && edges[i] == e;
      assert Allowed(edges[i], View(filter, true)) && Allowed(edges[i], View(filter, false));
    }
  }

  lemma ReachesNone<N(!new), T>(edges: seq<Edge<N, T>>, v: View<T>, x: N, y: N)
    ensures Reaches(edges, v, x, y, 0) <==> x == y
  {
    if Reaches(edges, v, x, y, 0) { var p: seq<N> :| IsWalk(edges, v, x, p) && |p| == 0 && End(x, p) == y; }
    assert IsWalk(edges, v, x, []) && End(x, []) == x;
  }

  /** A downstream walk is a chain of edges leading down from its start, ... */
  lemma {:induction false} DownIsLeads<N(!new), T>(edges: seq<Edge<N, T>>, filter: Filter<T>, x: N, y: N, d: nat)
    ensures Reaches(edges, View(filter, true), x, y, d) <==> LeadsTo(edges, filter, x, y, d)
    decreases d
  {
    var v := View(filter, true);
    ReachesNone(edges, v, x, y);
    hide Reaches, Step, Joined;
    if d > 0 {
      if Reaches(edges, v, x, y, d) {
        var z := ReachesBack(edges, v, x, y, d - 1);
        DownIsLeads(edges, filter, x, z, d - 1);
        StepIsJoined(edges, filter, z, y);
      }
      if LeadsTo(edges, filter, x, y, d) {
        var z :| LeadsTo(edges, filter, x, z, d - 1) && Joined(edges, filter, z, y);
        DownIsLeads(edges, filter, x, z, d - 1);
        StepIsJoined(edges, filter, z, y);
        ReachesNext(edges, v, x, z, y, d - 1);
      }
    }
  }

  /** ... and an upstream one such a chain leading down to its start. */
  lemma {:induction false} UpIsLeads<N(!new), T>(edges: seq<Edge<N, T>>, filter: Filter<T>, x: N, y: N, d: nat)
    ensures Reaches(edges, View(filter, false), y, x, d) <==> LeadsTo(edges, filter, x, y, d)
    decreases d
  {
    var v := View(filter, false);
    ReachesNone(edges, v, y, x);
    hide Reaches, Step, Joined;
    if d > 0 {
      if Reaches(edges, v, y, x, d) {
        var z := ReachesBack(edges, v, y, x, d - 1);
        UpIsLeads(edges, filter, z, y, d - 1);
        StepIsJoined(edges, filter, x, z);
        LeadsFrom(edges, filter, x, z, y, d - 1);
      }
      if LeadsTo(edges, filter, x, y, d) {
        var z := LeadsFirst(edges, filter, x, y, d);
        UpIsLeads(edges, filter, z, y, d - 1);
        StepIsJoined(edges, filter, x, z);
        ReachesNext(edges, v, y, z, x, d - 1);
      }
    }
  }

  lemma {:induction false} LeadsFrom<N(!new), T>(edges: seq<Edge<N, T>>, filter: Filter<T>, x: N, z: N, y: N, d: nat)
    requires Joined(edges, filter, x, z) && LeadsTo(edges, filter, z, y, d)
    ensures LeadsTo(edges, filter, x, y, d + 1)
    decreases d
  {
    hide Joined;
    if d == 0 {
      assert LeadsTo(edges, filter, x, x, 0);
    } else {
      var u :| LeadsTo(edges, filter, z, u, d - 1) && Joined(edges, filter, u, y);
      LeadsFrom(edges, filter, x, z, u, d - 1);
    }
  }

  lemma {:induction false} LeadsFirst<N(!new), T>(edges: seq<Edge<N, T>>, filter: Filter<T>, x: N, y: N, d: nat) returns (z: N)
    requires d > 0 && LeadsTo(edges, filter, x, y, d)
    ensures Joined(edges, filter, x, z) && LeadsTo(edges, filter, z, y, d - 1)
    decreases d
  {
    hide Joined;
    var u :| LeadsTo(edges, filter, x, u, d - 1) && Joined(edges, filter, u, y);
    if d == 1 {
      z := y;
    } else {
      z := LeadsFirst(edges, filter, x, u, d - 1);
    }
  }

  /** Upstream is the converse of downstream: `x` is at distance `d` above `y` exactly when `d` is the
      length of a shortest downstream walk from `x` to `y`. */
  lemma UpstreamIsConverse<N(!new), T>(edges: seq<Edge<N, T>>, filter: Filter<T>, x: N, y: N, d: nat)
    ensures Distance(edges, View(filter, false), y, x, d) <==> Distance(edges, View(filter, true), x, y, d)
  {
    forall c: nat ensures Reaches(edges, View(filter, false), y, x, c) <==> Reaches(edges, View(filter, true), x, y, c) {
      DownIsLeads(edges, filter, x, y, c);
      UpIsLeads(edges, filter, x, y, c);
    }
  }

  /** `descendants`: the other nodes that a chain of at most `maxDepth` wanted edges leads down to. */
  lemma DescendantsAre<N(!new), T>(edges: seq<Edge<N, T>>, filter: Filter<T>, start: N, maxDepth: int, x: N)
    ensures x in Walk(edges, View(filter, true), start, maxDepth) <==>
            x != start && exists d: nat :: d <= maxDepth && LeadsTo(edges, filter, start, x, d)
  {
    forall d: nat ensures Reaches(edges, View(filter, true), start, x, d) <==> LeadsTo(edges, filter, start, x, d) {
      DownIsLeads(edges, filter, start, x, d);
    }
    WalkIsReach(edges, View(filter, true), start, maxDepth, x);
    hide Walk, Reaches;
    if d: nat :| d <= maxDepth && LeadsTo(edges, filter, start, x, d) {
      assert Reaches(edges, View(filter, true), start, x, d);
    }
    if d: nat :| d <= maxDepth && Reaches(edges, View(filter, true), start, x, d) {
      assert LeadsTo(edges, filter, start, x, d);
    }
  }

  /** `ancestors`: the other nodes from which such a chain leads down to the start. */
  lemma AncestorsAre<N(!new), T>(edges: seq<Edge<N, T>>, filter: Filter<T>, start: N, maxDepth: int, x: N)
    ensures x in Walk(edges, View(filter, false), start, maxDepth) <==>
            x != start && exists d: nat :: d <= maxDepth && LeadsTo(edges, filter, x, start, d)
  {
    forall d: nat ensures Reaches(edges, View(filter, false), start, x, d) <==> LeadsTo(edges, filter, x, start, d) {
      UpIsLeads(edges, filter, x, start, d);
    }
    WalkIsReach(edges, View(filter, false), start, maxDepth, x);
    hide Walk, Reaches;
    if d: nat :| d <= maxDepth && LeadsTo(edges, filter, x, start, d) {
      assert Reaches(edges, View(filter, false), start, x, d);
    }
    if d: nat :| d <= maxDepth && Reaches(edges, View(filter, false), start, x, d) {
      assert LeadsTo(edges, filter, x, start, d);
    }
  }

  /** The walk holds what is reached within the bound, but for the start. */
  lemma WalkIsReach<N(!new), T>(edges: seq<Edge<N, T>>, v: View<T>, start: N, maxDepth: int, x: N)
    ensures x in Walk(edges, v, start, maxDepth) <==>
            x != start && exists d: nat :: d <= maxDepth && Reaches(edges, v, start, x, d)
  {
    WalkIsTheBall(edges, v, start, maxDepth);
    if d: nat :| d <= maxDepth && Reaches(edges, v, start, x, d) {
      var m := LeastReach(edges, v, start, x, d);
      if m == 0 { var p: seq<N> :| IsWalk(edges, v, start, p) && |p| == 0 && End(start, p) == x; }
    }
  }

  /** One level, field by field: the children of `start` below it, its parents above it. */
  lemma OneLevelIs<N(!new), T>(edges: seq<Edge<N, T>>, filter: Filter<T>, start: N, x: N)
    ensures x in Walk(edges, View(filter, true), start, 1) <==>
            x != start && exists e :: e in edges && e.parent == start && e.child == x && (filter.Kinds? ==> e.kind in filter.kinds)
    ensures x in Walk(edges, View(filter, false), start, 1) <==>
            x != start && exists e :: e in edges && e.child == start && e.parent == x && (filter.Kinds? ==> e.kind in filter.kinds)
  {
    DescendantsAre(edges, filter, start, 1, x);
    AncestorsAre(edges, filter, start, 1, x);
    OneEdgeLeads(edges, filter, start, x);
    OneEdgeLeads(edges, filter, x, start);
    hide Walk;
    assert (exists d: nat :: d <= 1 && LeadsTo(edges, filter, start, x, d))
        <==> LeadsTo(edges, filter, start, x, 0) || LeadsTo(edges, filter, start, x, 1);
    assert (exists d: nat :: d <= 1 && LeadsTo(edges, filter, x, start, d))
        <==> LeadsTo(edges, filter, x, start, 0) || LeadsTo(edges, filter, x, start, 1);
  }

  lemma OneEdgeLeads<N(!new), T>(edges: seq<Edge<N, T>>, filter: Filter<T>, x: N, y: N)
    ensures LeadsTo(edges, filter, x, y, 0) <==> x == y
    ensures LeadsTo(edges, filter, x, y, 1) <==> Joined(edges, filter, x, y)
  {
    assert LeadsTo(edges, filter, x, x, 0);
  }

  // ----- the recursive query -------------------------------------------------------------------

  /** `p` is the path of a row of the recursive query, whose depth column is |p|: the first arm
      joins the start's edges to the nodes; the second extends a row by an edge into a node whose
      rendered text is not on the row's path yet. The start itself is never on a path. */
  ghost predicate Row<N(!new), T>(edges: seq<Edge<N, T>>, nodes: set<N>, v: View<T>, text: N -> string,
                                  start: N, p: seq<N>)
  {
    && p != []
    && var rest, x := p[..|p| - 1], p[|p| - 1];
       && x in nodes && Step(edges, v, End(start, rest), x)
       && (rest != [] ==>
             && Row(edges, nodes, v, text, start, rest)
             && forall i :: 0 <= i < |rest| ==> text(rest[i]) != text(x))
  }

  ghost predicate RowTo<N(!new), T>(edges: seq<Edge<N, T>>, nodes: set<N>, v: View<T>, text: N -> string,
                                    start: N, x: N, d: nat)
  {
    exists p :: Row(edges, nodes, v, text, start, p) && |p| == d && End(start, p) == x
  }

  /** `x` is in the query's result, and `d` is the depth DISTINCT ON keeps for it. The adapter
      runs the query only for a depth bound of at least one. */
  ghost predicate Selected<N(!new), T>(edges: seq<Edge<N, T>>, nodes: set<N>, v: View<T>, text: N -> string,
                                       start: N, maxDepth: int, x: N, d: nat)
  {
    && 1 <= d <= maxDepth
    && RowTo(edges, nodes, v, text, start, x, d)
    && forall c: nat :: c < d ==> !RowTo(edges, nodes, v, text, start, x, c)
  }

  /** `rows` is the query's result: every selected node once, nearest first, and by key among the
      nodes of one depth; `key` is the column the rows are ordered by. */
  ghost predicate QueryRows<N(!new), T>(edges: seq<Edge<N, T>>, nodes: set<N>, v: View<T>, text: N -> string,
                                        key: N -> string, start: N, maxDepth: int, rows: seq<N>)
  {
    && NoDuplicates(rows)
    && (forall x :: x in rows <==> exists d: nat :: Selected(edges, nodes, v, text, start, maxDepth, x, d))
    && (forall i, j, c: nat, d: nat | 0 <= i < j < |rows| ::
          Selected(edges, nodes, v, text, start, maxDepth, rows[i], c)
          && Selected(edges, nodes, v, text, start, maxDepth, rows[j], d)
          ==> c < d || (c == d && !Less(key(rows[j]), key(rows[i]))))
  }

  /** `d` is the length of a shortest walk from `start` to `x` that takes at least one step. */
  ghost predicate Shortest<N(!new), T>(edges: seq<Edge<N, T>>, v: View<T>, start: N, x: N, d: nat) {
    && 1 <= d && Reaches(edges, v, start, x, d)
    && forall c: nat :: 1 <= c < d ==> !Reaches(edges, v, start, x, c)
  }

  /** Every edge ends in stored nodes, as `add_edge` requires. */
  ghost predicate Closed<N, T>(edges: seq<Edge<N, T>>, nodes: set<N>) {
    forall i :: 0 <= i < |edges| ==> edges[i].parent in nodes && edges[i].child in nodes
  }

  /** Different stored nodes have different entries on the path. */
  ghost predicate Named<N>(nodes: set<N>, text: N -> string) {
    forall a, b :: a in nodes && b in nodes && text(a) == text(b) ==> a == b
  }

  lemma {:induction false} RowIsWalk<N(!new), T>(edges: seq<Edge<N, T>>, nodes: set<N>, v: View<T>, text: N -> string,
                                                 start: N, p: seq<N>)
    requires Row(edges, nodes, v, text, start, p)
    ensures IsWalk(edges, v, start, p)
  {
    var rest := p[..|p| - 1];
    if rest != [] { RowIsWalk(edges, nodes, v, text, start, rest); }
    forall i | 0 <= i < |p| ensures Step(edges, v, End(start, p[..i]), p[i]) {
      if i < |rest| { assert p[..i] == rest[..i] && p[i] == rest[i]; }
    }
  }

  /** A walk without repetitions is a path the query does not prune. */
  lemma {:induction false} SimpleWalkIsRow<N(!new), T>(edges: seq<Edge<N, T>>, nodes: set<N>, v: View<T>,
                                                       text: N -> string, start: N, p: seq<N>)
    requires Closed(edges, nodes)
    requires Named(nodes, text)
    requires p != [] && IsWalk(edges, v, start, p) && NoDuplicates(p)
    ensures Row(edges, nodes, v, text, start, p)
    ensures forall i :: 0 <= i < |p| ==> p[i] in nodes
  {
    var rest, x := p[..|p| - 1], p[|p| - 1];
    assert Step(edges, v, End(start, p[..|p| - 1]), x);
    if rest != [] {
      forall i | 0 <= i < |rest| ensures Step(edges, v, End(start, rest[..i]), rest[i]) {
        assert rest[..i] == p[..i] && Step(edges, v, End(start, p[..i]), p[i]);
      }
      SimpleWalkIsRow(edges, nodes, v, text, start, rest);
    }
  }

  /** Cutting the loop between two visits of one node leaves a walk to the same end. */
  lemma CutLoop<N(!new), T>(edges: seq<Edge<N, T>>, v: View<T>, start: N, p: seq<N>, i: nat, j: nat)
    requires IsWalk(edges, v, start, p) && i < j < |p| && p[i] == p[j]
    ensures var q := p[..i + 1] + p[j + 1..];
            IsWalk(edges, v, start, q) && End(start, q) == End(start, p)
  {
    hide Step;
    var q := p[..i + 1] + p[j + 1..];
    forall k | 0 <= k < |q| ensures Step(edges, v, End(start, q[..k]), q[k]) {
      if k <= i {
        assert q[..k] == p[..k] && Step(edges, v, End(start, p[..k]), p[k]);
      } else {
        var m := k - i + j;
        assert Step(edges, v, End(start, p[..m]), p[m]);
        EndOfPrefix(start, q, k);
        EndOfPrefix(start, p, m);
        assert q[k] == p[m] && q[k - 1] == p[m - 1];
      }
    }
  }

  lemma EndOfPrefix<N>(start: N, p: seq<N>, k: nat)
    requires 0 < k <= |p|
    ensures End(start, p[..k]) == p[k - 1]
  {
  }

  lemma ShortestIsRow<N(!new), T>(edges: seq<Edge<N, T>>, nodes: set<N>, v: View<T>, text: N -> string,
                                  start: N, x: N, d: nat)
    requires Closed(edges, nodes)
    requires Named(nodes, text)
    requires Shortest(edges, v, start, x, d)
    ensures RowTo(edges, nodes, v, text, start, x, d)
  {
    var p :| IsWalk(edges, v, start, p) && |p| == d && End(start, p) == x;
    forall i, j | 0 <= i < j < |p| ensures p[i] != p[j] {
      if p[i] == p[j] {
        CutLoop(edges, v, start, p, i, j);
        var q := p[..i + 1] + p[j + 1..];
        assert Reaches(edges, v, start, x, |q|);
      }
    }
    SimpleWalkIsRow(edges, nodes, v, text, start, p);
  }

  /** The query selects a node at depth d exactly when d is within the bound and is the length of
      a shortest walk to it that takes a step. */
  lemma QueryIsShortest<N(!new), T>(edges: seq<Edge<N, T>>, nodes: set<N>, v: View<T>, text: N -> string,
                                    start: N, maxDepth: int, x: N, d: nat)
    requires Closed(edges, nodes)
    requires Named(nodes, text)
    ensures Selected(edges, nodes, v, text, start, maxDepth, x, d) <==>
            d <= maxDepth && Shortest(edges, v, start, x, d)
  {
    forall c: nat | RowTo(edges, nodes, v, text, start, x, c) ensures 1 <= c && Reaches(edges, v, start, x, c) {
      var p :| Row(edges, nodes, v, text, start, p) && |p| == c && End(start, p) == x;
      RowIsWalk(edges, nodes, v, text, start, p);
    }
    if Selected(edges, nodes, v, text, start, maxDepth, x, d) {
      forall c: nat | 1 <= c < d && Reaches(edges, v, start, x, c) ensures false {
        var m := LeastPositive(edges, v, start, x, c);
        ShortestIsRow(edges, nodes, v, text, start, x, m);
      }
    }
    if d <= maxDepth && Shortest(edges, v, start, x, d) {
      ShortestIsRow(edges, nodes, v, text, start, x, d);
    }
  }

  lemma {:induction false} LeastPositive<N(!new), T>(edges: seq<Edge<N, T>>, v: View<T>, start: N, x: N, d: nat) returns (m: nat)
    requires 1 <= d && Reaches(edges, v, start, x, d)
    ensures m <= d && Shortest(edges, v, start, x, m)
  {
    if c: nat :| 1 <= c < d && Reaches(edges, v, start, x, c) {
      m := LeastPositive(edges, v, start, x, c);
    } else {
      m := d;
    }
  }

  /** The two backends return the same nodes at the same depths, except that the query may also
      return the start: exactly when the start lies on a cycle no longer than the bound. */
  ghost predicate SameTraversal<N(!new), T>(edges: seq<Edge<N, T>>, nodes: set<N>, v: View<T>, text: N -> string,
                                            start: N, maxDepth: int)
  {
    && (forall x, d: nat :: x != start ==>
          (Selected(edges, nodes, v, text, start, maxDepth, x, d) <==>
           x in Walk(edges, v, start, maxDepth) && Distance(edges, v, start, x, d)))
    && ((exists d: nat :: Selected(edges, nodes, v, text, start, maxDepth, start, d)) <==>
        (exists d: nat :: 1 <= d <= maxDepth && Reaches(edges, v, start, start, d)))
  }

  lemma TraversalsAgree<N(!new), T>(edges: seq<Edge<N, T>>, nodes: set<N>, v: View<T>, text: N -> string,
                                    start: N, maxDepth: int)
    requires Closed(edges, nodes)
    requires Named(nodes, text)
    ensures SameTraversal(edges, nodes, v, text, start, maxDepth)
  {
    WalkIsTheBall(edges, v, start, maxDepth);
    forall x, d: nat | x != start
      ensures Selected(edges, nodes, v, text, start, maxDepth, x, d) <==>
              x in Walk(edges, v, start, maxDepth) && Distance(edges, v, start, x, d)
    {
      QueryIsShortest(edges, nodes, v, text, start, maxDepth, x, d);
      assert !Reaches(edges, v, start, x, 0);
      assert Shortest(edges, v, start, x, d) <==> Distance(edges, v, start, x, d);
      if x in Walk(edges, v, start, maxDepth) && Distance(edges, v, start, x, d) {
        var c: nat :| 1 <= c <= maxDepth && Distance(edges, v, start, x, c);
        DistanceUnique(edges, v, start, x, c, d);
      }
    }
    if d: nat :| 1 <= d <= maxDepth && Reaches(edges, v, start, start, d) {
      var m := LeastPositive(edges, v, start, start, d);
      QueryIsShortest(edges, nodes, v, text, start, maxDepth, start, m);
      assert Selected(edges, nodes, v, text, start, maxDepth, start, m);
    }
    if d: nat :| Selected(edges, nodes, v, text, start, maxDepth, start, d) {
      QueryIsShortest(edges, nodes, v, text, start, maxDepth, start, d);
      assert Reaches(edges, v, start, start, d);
    }
  }

  // ----- the path column -----------------------------------------------------------------------

  /** A node's entry on the query's path: label, colon, key. */
  function PathText(id: (string, string)): string {
    id.0 + ":" + id.1
  }

  /** Labels without a colon make the entry name its node. */
  lemma PathTextNamesNode(a: (string, string), b: (string, string))
    requires ':' !in a.0 && ':' !in b.0
    requires PathText(a) == PathText(b)
    ensures a == b
  {
    var t := PathText(a);
    assert t[|a.0|] == ':' && t[|b.0|] == ':';
    assert forall i :: 0 <= i < |a.0| ==> a.0[i] in a.0 && t[i] == a.0[i];
    assert forall i :: 0 <= i < |b.0| ==> b.0[i] in b.0 && t[i] == b.0[i];
    assert a.0 == t[..|a.0|] && b.0 == t[..|b.0|];
    assert a.1 == t[|a.0| + 1..] && b.1 == t[|b.0| + 1..];
  }

  /** So the backends agree on every graph whose labels have no colon. */
  lemma ColonFreeLabelsAgree<T>(edges: seq<Edge<(string, string), T>>, nodes: set<(string, string)>, v: View<T>,
                                start: (string, string), maxDepth: int)
    requires Closed(edges, nodes) && forall id :: id in nodes ==> ':' !in id.0
    ensures SameTraversal(edges, nodes, v, PathText, start, maxDepth)
  {
    forall a, b | a in nodes && b in nodes && PathText(a) == PathText(b) ensures a == b { PathTextNamesNode(a, b); }
    TraversalsAgree(edges, nodes, v, PathText, start, maxDepth);
  }

  /** Two chained nodes with one text: the query never reaches the second, the walk does. */
  lemma SharedTextLosesNode<N(!new), T(!new)>(s: N, a: N, b: N, kind: T, text: N -> string)
    requires s != a && s != b && a != b && text(a) == text(b)
    ensures var edges := [Edge(s, a, kind, map[]), Edge(a, b, kind, map[])];
            && b in Walk(edges, View(AnyKind, true), s, 2)
            && !exists d: nat :: Selected(edges, {s, a, b}, View(AnyKind, true), text, s, 2, b, d)
  {
    var edges := [Edge(s, a, kind, map[]), Edge(a, b, kind, map[])];
    var v: View<T> := View(AnyKind, true);
    WalkIsTheBall(edges, v, s, 2);
    assert edges[0].child == a && edges[1].child == b;
    assert Step(edges, v, s, a) && Step(edges, v, a, b);
    assert [a, b][..0] == [] && [a, b][..1] == [a];
    assert IsWalk(edges, v, s, [a, b]);
    var m := LeastReach(edges, v, s, b, 2);
    assert !Reaches(edges, v, s, b, 0);
    forall p | Row(edges, {s, a, b}, v, text, s, p) ensures End(s, p) != b {
      var rest := p[..|p| - 1];
      assert Step(edges, v, End(s, rest), p[|p| - 1]);
    }
  }

  /** A node sharing the start's text hides the start's cycle through it. */
  lemma SharedTextLosesCycle<N(!new), T(!new)>(s: N, a: N, kind: T, text: N -> string)
    requires s != a && text(a) == text(s)
    ensures var edges := [Edge(s, a, kind, map[]), Edge(a, s, kind, map[])];
            && Reaches(edges, View(AnyKind, true), s, s, 2)
            && !exists d: nat :: Selected(edges, {s, a}, View(AnyKind, true), text, s, 2, s, d)
  {
    var edges := [Edge(s, a, kind, map[]), Edge(a, s, kind, map[])];
    var v: View<T> := View(AnyKind, true);
    assert edges[0].child == a && edges[1].child == s;
    assert Step(edges, v, s, a) && Step(edges, v, a, s);
    assert [a, s][..0] == [] && [a, s][..1] == [a];
    assert IsWalk(edges, v, s, [a, s]) && |[a, s]| == 2 && End(s, [a, s]) == s;
    forall p | Row(edges, {s, a}, v, text, s, p) ensures End(s, p) != s {
      var rest := p[..|p| - 1];
      assert Step(edges, v, End(s, rest), p[|p| - 1]);
    }
  }

  /** Rows depend on the stored nodes only through those the edges end in. */
  lemma {:induction false} RowInPart<N(!new), T>(edges: seq<Edge<N, T>>, part: set<N>, nodes: set<N>, v: View<T>,
                                                 text: N -> string, start: N, p: seq<N>)
    requires Closed(edges, part) && part <= nodes
    ensures Row(edges, part, v, text, start, p) <==> Row(edges, nodes, v, text, start, p)
  {
    if p != [] { RowInPart(edges, part, nodes, v, text, start, p[..|p| - 1]); }
  }

  lemma SelectedInPart<N(!new), T>(edges: seq<Edge<N, T>>, part: set<N>, nodes: set<N>, v: View<T>,
                                   text: N -> string, start: N, maxDepth: int, x: N, d: nat)
    requires Closed(edges, part) && part <= nodes
    ensures Selected(edges, part, v, text, start, maxDepth, x, d) <==> Selected(edges, nodes, v, text, start, maxDepth, x, d)
  {
    forall p ensures Row(edges, part, v, text, start, p) <==> Row(edges, nodes, v, text, start, p) {
      RowInPart(edges, part, nodes, v, text, start, p);
    }
    hide Row;
    assert forall c: nat :: RowTo(edges, part, v, text, start, x, c) <==> RowTo(edges, nodes, v, text, start, x, c);
  }

  /** Among the graphs over a set of nodes the backends agree on all exactly when the path entries
      name the nodes. */
  lemma AgreeExactlyWhenNamed<N(!new), T(!new)>(nodes: set<N>, text: N -> string, start: N, kind: T)
    requires start in nodes
    ensures Named(nodes, text) <==>
            (forall edges: seq<Edge<N, T>>, maxDepth: int :: Closed(edges, nodes) ==>
               SameTraversal(edges, nodes, View(AnyKind, true), text, start, maxDepth))
  {
    var v: View<T> := View(AnyKind, true);
    if Named(nodes, text) {
      forall edges: seq<Edge<N, T>>, maxDepth: int | Closed(edges, nodes)
        ensures SameTraversal(edges, nodes, v, text, start, maxDepth)
      {
        TraversalsAgree(edges, nodes, v, text, start, maxDepth);
      }
    } else {
      var a, b :| a in nodes && b in nodes && text(a) == text(b) && a != b;
      hide Selected, Distance, Reaches, Walk;
      if a == start || b == start {
        CycleLost(nodes, text, start, if a == start then b else a, kind);
      } else {
        NodeLost(nodes, text, start, a, b, kind);
      }
    }
  }

  lemma CycleLost<N(!new), T(!new)>(nodes: set<N>, text: N -> string, s: N, a: N, kind: T)
    requires s in nodes && a in nodes && s != a && text(a) == text(s)
    ensures var edges := [Edge(s, a, kind, map[]), Edge(a, s, kind, map[])];
            Closed(edges, nodes) && !SameTraversal(edges, nodes, View(AnyKind, true), text, s, 2)
  {
    var edges := [Edge(s, a, kind, map[]), Edge(a, s, kind, map[])];
    SharedTextLosesCycle(s, a, kind, text);
    forall d: nat { SelectedInPart(edges, {s, a}, nodes, View(AnyKind, true), text, s, 2, s, d); }
    hide Selected, Distance, Reaches, Walk;
  }

  lemma NodeLost<N(!new), T(!new)>(nodes: set<N>, text: N -> string, s: N, a: N, b: N, kind: T)
    requires s in nodes && a in nodes && b in nodes && s != a && s != b && a != b && text(a) == text(b)
    ensures var edges := [Edge(s, a, kind, map[]), Edge(a, b, kind, map[])];
            Closed(edges, nodes) && !SameTraversal(edges, nodes, View(AnyKind, true), text, s, 2)
  {
    var edges := [Edge(s, a, kind, map[]), Edge(a, b, kind, map[])];
    var v: View<T> := View(AnyKind, true);
    SharedTextLosesNode(s, a, b, kind, text);
    WalkIsTheBall(edges, v, s, 2);
    forall d: nat { SelectedInPart(edges, {s, a, b}, nodes, v, text, s, 2, b, d); }
    var d: nat :| 1 <= d <= 2 && Distance(edges, v, s, b, d);
    hide Selected, Distance, Reaches, Walk;
  }

  /** A label with a colon is enough for that. */
  lemma ColonLosesNode()
    ensures var s, a, b: (string, string) := ("S", "0"), ("A", "B:C"), ("A:B", "C");
            var edges: seq<Edge<(string, string), string>> := [Edge(s, a, "E", map[]), Edge(a, b, "E", map[])];
            && b in Walk(edges, View(AnyKind, true), s, 2)
            && !exists d: nat :: Selected(edges, {s, a, b}, View(AnyKind, true), PathText, s, 2, b, d)
  {
    var s, a, b: (string, string) := ("S", "0"), ("A", "B:C"), ("A:B", "C");
    assert PathText(a) == PathText(b) == "A:B:C";
    assert |a.0| != |b.0| && s.0[0] != a.0[0] && |s.0| != |b.0|;
    SharedTextLosesNode(s, a, b, "E", PathText);
  }
}
