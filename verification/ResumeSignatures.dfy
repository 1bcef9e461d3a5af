/** The edge shapes resume declares it can write (`resume_edge_signatures` in
    `orchestration/resume_plan.py`), against those it writes. */
module ResumeSignatures {
  import opened Options
  import opened Traversal
  import opened Resume

  datatype Signature = Signature(parent: string, kind: Kind, child: string)

  const REQUEST := "RunRequest"
  const CONTEXT := "RegimeContext"

  function LabelOf(s: Stage): string {
    match s
    case PositionSync => "MonitorRun"
    case MarketData => "MarketData"
    case ScanRun => "ScanRun"
    case AnalystRun => "AnalystRun"
    case PMRun => "PMRun"
    case ExecutionRun => "ExecutionRun"
    case MonitorRun => "MonitorRun"
    case Snapshot => "Snapshot"
  }

  function NodeLabel(id: Id): string {
    match id
    case Request(_) => REQUEST
    case Clone(_, s) => LabelOf(s)
    case Regime(_) => CONTEXT
    case Other(name, _) => name
  }

  function SignatureOf(e: Edge<Id, Kind>): Signature {
    Signature(NodeLabel(e.parent), e.kind, NodeLabel(e.child))
  }

  function ParentLabel(s: Stage): string {
    if Index(s) <= 1 then REQUEST else LabelOf(Artifact(Index(s) - 1))
  }

  /** The shapes one artifact declares. */
  function Declared(s: Stage): set<Signature> {
    {Signature(ParentLabel(s), By(s), LabelOf(s)), Signature(LabelOf(s), LinkedFrom, LabelOf(s))}
    + (if s == ScanRun then {Signature(LabelOf(s), DerivedFrom, LabelOf(MarketData))} else {})
  }

  /** `resume_edge_signatures` over the artifact table. */
  method EdgeSignatures() returns (found: set<Signature>)
    ensures forall x :: x in found <==> IsDeclared(x)
  {
    hide Declared, Artifact;
    found := {Signature(CONTEXT, LinkedFrom, CONTEXT)};
    for i := 0 to ARTIFACTS
      invariant forall x :: x in found <==> x == Signature(CONTEXT, LinkedFrom, CONTEXT) || DeclaredBefore(x, i)
    {
      found := found + Declared(Artifact(i));
    }
  }

  ghost predicate DeclaredBefore(x: Signature, n: nat)
    requires n <= ARTIFACTS
  {
    exists i :: 0 <= i < n && x in Declared(Artifact(i))
  }

  ghost predicate IsDeclared(x: Signature) {
    x == Signature(CONTEXT, LinkedFrom, CONTEXT) || DeclaredBefore(x, ARTIFACTS)
  }

  predicate IsSideKind(kind: Kind) { kind == ForecastBy || kind == DeliberatedBy }

  lemma ArtifactDeclared(child: string, source: Id, s: Stage, side: Option<Id>, e: Edge<Id, Kind>)
    requires e in ArtifactEdges(child, source, s, side) && NodeLabel(source) == LabelOf(s)
    requires side.Some? ==> s == AnalystRun || s == PMRun
    ensures IsDeclared(SignatureOf(e)) <==> !IsSideKind(e.kind)
  {
    assert Artifact(Index(s)) == s;
    if !IsSideKind(e.kind) {
      hide LabelOf;
      assert e in CloneEdges(child, source, s);
      assert SignatureOf(e) in Declared(s);
      assert DeclaredBefore(SignatureOf(e), ARTIFACTS);
    } else {
      assert forall t: Stage :: forall x :: x in Declared(t) ==> !IsSideKind(x.kind);
    }
  }

  /** Of the edges a placed child gets, those declared are exactly all but its link to the source run
      and the re-linked side branches, provided the source's artifacts carry their own labels. */
  lemma {:induction false} WrittenAreDeclared(child: string, chain: map<ChainKey, Id>, edges: seq<Edge<Id, Kind>>, k: nat,
                                              e: Edge<Id, Kind>)
    requires k <= ARTIFACTS && Run in chain && HasAll(chain, k) && e in ChildEdges(child, chain, edges, k)
    requires forall i :: 0 <= i < k ==> NodeLabel(chain[At(Artifact(i))]) == LabelOf(Artifact(i))
    ensures IsDeclared(SignatureOf(e)) <==> e.kind != Resumes && !IsSideKind(e.kind)
  {
    hide LabelOf, NodeLabel, ArtifactEdges, SideOf;
    if k == 0 {
      assert forall t: Stage :: forall x :: x in Declared(t) ==> x.kind != Resumes;
    } else if e in ChildEdges(child, chain, edges, k - 1) {
      WrittenAreDeclared(child, chain, edges, k - 1, e);
    } else {
      var s := Artifact(k - 1);
      var side := SideOf(edges, chain[At(s)], s);
      assert side.Some? ==> s == AnalystRun || s == PMRun by { OnlyTwoSides(edges, chain[At(s)], s); }
      ArtifactDeclared(child, chain[At(s)], s, side, e);
      assert e.kind != Resumes by { NeverResumes(child, chain[At(s)], s, side); }
    }
  }

  lemma OnlyTwoSides(edges: seq<Edge<Id, Kind>>, source: Id, s: Stage)
    ensures SideOf(edges, source, s).Some? ==> s == AnalystRun || s == PMRun
  {
  }

  lemma NeverResumes(child: string, source: Id, s: Stage, side: Option<Id>)
    ensures forall e :: e in ArtifactEdges(child, source, s, side) ==> e.kind != Resumes
  {
  }
}
