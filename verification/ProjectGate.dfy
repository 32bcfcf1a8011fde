/**
  The import gate and the migration of edge types: which materialised projects pass,
  told from the patch alone.
*/
module ProjectGate {
  import opened Wrappers
  import opened PatchProject
  import opened PatchReading

  // ---- The gate ----

  function PlacementIds(placements: seq<Placement>): (r: seq<string>)
    ensures |r| == |placements| && forall i :: 0 <= i < |r| ==> r[i] == placements[i].id
  {
    seq(|placements|, i requires 0 <= i < |placements| => placements[i].id)
  }

  ghost predicate NodesPass(p: Project) {
    Distinct(NodeIds(p.nodes)) && forall k :: 0 <= k < |p.nodes| ==> p.nodes[k].nodeType in NODE_TYPES
  }

  predicate EdgePasses(p: Project, e: Edge) {
    e.edgeType.Text? && Converge(e.edgeType.text).Some? && e.source in NodeIds(p.nodes) && e.target in NodeIds(p.nodes)
  }

  ghost predicate EdgesPass(p: Project) {
    Distinct(EdgeIds(p.edges)) && forall k :: 0 <= k < |p.edges| ==> EdgePasses(p, p.edges[k])
  }

  ghost predicate PlacementsPass(p: Project) {
    Distinct(PlacementIds(p.placements)) && forall k :: 0 <= k < |p.placements| ==>
      p.placements[k].nodeId in NodeIds(p.nodes)
  }

  ghost predicate PassesGate(p: Project) {
    p.schemaVersion == 2 && p.id != "" && NodesPass(p) && EdgesPass(p) && PlacementsPass(p)
  }

  /** What passes: a known version, an id, unique ids, known types, and no edge or placement at a missing node. */
  lemma PassesGateIff(p: Project)
    ensures PassesGate(p) <==>
            p.schemaVersion == 2 && p.id != "" &&
            (forall i, k :: 0 <= i < k < |p.nodes| ==> p.nodes[i].id != p.nodes[k].id) &&
            (forall i, k :: 0 <= i < k < |p.edges| ==> p.edges[i].id != p.edges[k].id) &&
            (forall i, k :: 0 <= i < k < |p.placements| ==> p.placements[i].id != p.placements[k].id) &&
            (forall n :: n in p.nodes ==> n.nodeType in NODE_TYPES) &&
            (forall e :: e in p.edges ==> e.edgeType.Text? && Converge(e.edgeType.text).Some? &&
                                          HasNode(p, e.source) && HasNode(p, e.target)) &&
            forall c :: c in p.placements ==> HasNode(p, c.nodeId)
  {
    assert forall id :: id in NodeIds(p.nodes) <==> HasNode(p, id);
  }

  ghost predicate HasNode(p: Project, id: string) {
    exists n :: n in p.nodes && n.id == id
  }

  method NodesGate(p: Project) returns (ok: bool, ids: set<string>)
    ensures ok <==> NodesPass(p)
    ensures ok ==> forall x :: x in ids <==> x in NodeIds(p.nodes)
  {
    ids := {};
    for k := 0 to |p.nodes|
      invariant forall x :: x in ids <==> x in NodeIds(p.nodes)[..k]
      invariant Distinct(NodeIds(p.nodes)[..k])
      invariant forall j :: 0 <= j < k ==> p.nodes[j].nodeType in NODE_TYPES
    {
      var all := NodeIds(p.nodes);
      assert all[..k + 1] == all[..k] + [all[k]];
      if p.nodes[k].id in ids {
        var j :| 0 <= j < k && all[..k][j] == all[k];
        assert all[j] == all[k];
        return false, ids;
      }
      if p.nodes[k].nodeType !in NODE_TYPES { return false, ids; }
      ids := ids + {p.nodes[k].id};
    }
    assert NodeIds(p.nodes)[..|p.nodes|] == NodeIds(p.nodes);
    return true, ids;
  }

  method EdgesGate(p: Project, nodeIds: set<string>) returns (ok: bool)
    requires forall x :: x in nodeIds <==> x in NodeIds(p.nodes)
    ensures ok <==> EdgesPass(p)
  {
    var ids: set<string> := {};
    for k := 0 to |p.edges|
      invariant forall x :: x in ids <==> x in EdgeIds(p.edges)[..k]
      invariant Distinct(EdgeIds(p.edges)[..k])
      invariant forall j :: 0 <= j < k ==> EdgePasses(p, p.edges[j])
    {
      var all := EdgeIds(p.edges);
      assert all[..k + 1] == all[..k] + [all[k]];
      var e := p.edges[k];
      if e.id in ids {
        var j :| 0 <= j < k && all[..k][j] == all[k];
        assert all[j] == all[k];
        return false;
      }
      if !e.edgeType.Text? || Converge(e.edgeType.text).None? { return false; }
      if e.source !in nodeIds || e.target !in nodeIds { return false; }
      ids := ids + {e.id};
    }
    assert EdgeIds(p.edges)[..|p.edges|] == EdgeIds(p.edges);
    return true;
  }

  method PlacementsGate(p: Project, nodeIds: set<string>) returns (ok: bool)
    requires forall x :: x in nodeIds <==> x in NodeIds(p.nodes)
    ensures ok <==> PlacementsPass(p)
  {
    var ids: set<string> := {};
    for k := 0 to |p.placements|
      invariant forall x :: x in ids <==> x in PlacementIds(p.placements)[..k]
      invariant Distinct(PlacementIds(p.placements)[..k])
      invariant forall j :: 0 <= j < k ==> p.placements[j].nodeId in NodeIds(p.nodes)
    {
      var all := PlacementIds(p.placements);
      assert all[..k + 1] == all[..k] + [all[k]];
      if p.placements[k].id in ids {
        var j :| 0 <= j < k && all[..k][j] == all[k];
        assert all[j] == all[k];
        return false;
      }
      if p.placements[k].nodeId !in nodeIds { return false; }
      ids := ids + {p.placements[k].id};
    }
    assert PlacementIds(p.placements)[..|p.placements|] == PlacementIds(p.placements);
    return true;
  }

  /** The import gate, on projects whose fields have their declared types but for the edge types. */
  method IsProjectState(p: Project) returns (ok: bool)
    ensures ok <==> PassesGate(p)
  {
    if p.schemaVersion != 2 || p.id == "" { return false; }
    var nodeIds;
    ok, nodeIds := NodesGate(p);
    if !ok { return; }
    ok := EdgesGate(p, nodeIds);
    if !ok { return; }
    ok := PlacementsGate(p, nodeIds);
  }

  // ---- Migration ----

  function MigrateType(t: TypeValue): TypeValue {
    if t.Text? then Converge(t.text).GetOr(t) else t
  }

  function MigrateEdges(edges: seq<Edge>): (r: seq<Edge>)
    ensures |r| == |edges| && forall i :: 0 <= i < |r| ==> r[i] == edges[i].(edgeType := MigrateType(edges[i].edgeType))
  {
    seq(|edges|, i requires 0 <= i < |edges| => edges[i].(edgeType := MigrateType(edges[i].edgeType)))
  }

  function MigrateScenario(s: Scenario): Scenario {
    Scenario(map id | id in s.edgeOverrides ::
      if s.edgeOverrides[id].Some? then Some(MigrateType(s.edgeOverrides[id].value)) else None)
  }

  function Migrate(p: Project): Project {
    p.(edges := MigrateEdges(p.edges),
       scenarios := seq(|p.scenarios|, i requires 0 <= i < |p.scenarios| => MigrateScenario(p.scenarios[i])))
  }

  // A type converges to what its name does; a name that does not converge stays.
  ghost predicate TypeMigrates(t: TypeValue, u: TypeValue) {
    if t.Text? && Converge(t.text).Some? then u == Converge(t.text).value else u == t
  }

  /**
    Migration touches nothing but edge types, of edges and of scenario overrides, and those as their names converge.
  */
  lemma MigrationConverges(p: Project)
    ensures var q := Migrate(p);
            q == p.(edges := q.edges, scenarios := q.scenarios) &&
            |q.edges| == |p.edges| && |q.scenarios| == |p.scenarios| &&
            (forall i :: 0 <= i < |p.edges| ==>
               q.edges[i] == p.edges[i].(edgeType := q.edges[i].edgeType) &&
               TypeMigrates(p.edges[i].edgeType, q.edges[i].edgeType)) &&
            forall i, id :: 0 <= i < |p.scenarios| ==>
              var before, after := p.scenarios[i].edgeOverrides, q.scenarios[i].edgeOverrides;
              (id in before <==> id in after) &&
              (id in before ==>
                (before[id].Some? <==> after[id].Some?) &&
                (before[id].Some? ==> TypeMigrates(before[id].value, after[id].value)))
  {
  }

  lemma MigratedTypeIsFixed(t: TypeValue)
    ensures MigrateType(MigrateType(t)) == MigrateType(t)
  {
    if t.Text? && Converge(t.text).Some? && Converge(t.text).value.Text? { ConvergedIsOperator(t.text); }
  }

  /** Migrating twice is migrating once, edges and scenario overrides alike. */
  lemma MigrationIsIdempotent(p: Project)
    ensures Migrate(Migrate(p)) == Migrate(p)
  {
    var q := Migrate(p);
    forall i | 0 <= i < |q.edges| ensures Migrate(q).edges[i] == q.edges[i] {
      MigratedTypeIsFixed(p.edges[i].edgeType);
    }
    forall i | 0 <= i < |q.scenarios| ensures Migrate(q).scenarios[i] == q.scenarios[i] {
      var before, after := p.scenarios[i].edgeOverrides, q.scenarios[i].edgeOverrides;
      forall id | id in after && after[id].Some? ensures MigrateType(after[id].value) == after[id].value {
        MigratedTypeIsFixed(before[id].value);
      }
      assert Migrate(q).scenarios[i].edgeOverrides == after;
    }
  }

  /** A project that passed the gate still passes once migrated, unless an edge type names a prototype member. */
  lemma MigratedPassesIff(p: Project)
    requires PassesGate(p)
    ensures PassesGate(Migrate(p)) <==> forall k :: 0 <= k < |p.edges| ==> !IsInherited(p.edges[k].edgeType.text)
    ensures PassesGate(Migrate(p)) ==>
              forall k :: 0 <= k < |p.edges| ==>
                Migrate(p).edges[k].edgeType.Text? && Migrate(p).edges[k].edgeType.text in EDGE_TYPES
  {
    var q := Migrate(p);
    assert EdgeIds(q.edges) == EdgeIds(p.edges);
    forall k | 0 <= k < |p.edges|
      ensures EdgePasses(q, q.edges[k]) <==> !IsInherited(p.edges[k].edgeType.text)
      ensures EdgePasses(q, q.edges[k]) ==> q.edges[k].edgeType.text in EDGE_TYPES
    {
      assert EdgePasses(p, p.edges[k]);
      var name := p.edges[k].edgeType.text;
      if Converge(name).value.Text? { ConvergedIsOperator(name); }
    }
  }

  // ---- Materialised projects at the gate ----

  /** Migration has nothing to do on a materialised project. */
  lemma MigrationLeavesMaterializedAlone(title: string, documentId: string, ops: seq<Operation>)
    ensures Migrate(Materialized(title, documentId, ops)) == Materialized(title, documentId, ops)
  {
    MaterializedIsGood(title, documentId, ops);
    var p := Materialized(title, documentId, ops);
    forall i | 0 <= i < |p.edges| ensures MigrateType(p.edges[i].edgeType) == p.edges[i].edgeType {
      assert GoodEdge(p, p.edges[i]);
    }
    assert Migrate(p).edges == p.edges && Migrate(p).scenarios == p.scenarios;
  }

  lemma GoodPassesIff(p: Project)
    requires Good(p)
    ensures PassesGate(p) <==> forall k :: 0 <= k < |p.edges| ==> p.edges[k].edgeType.Text?
  {
    forall i, j | 0 <= i < j < |p.placements| ensures PlacementIds(p.placements)[i] != PlacementIds(p.placements)[j] {
      assert NodeIds(p.nodes)[i] != NodeIds(p.nodes)[j];
      assert p.placements[i].id[10..] == p.nodes[i].id && p.placements[j].id[10..] == p.nodes[j].id;
    }
    forall k | 0 <= k < |p.placements| ensures p.placements[k].nodeId in NodeIds(p.nodes) {
      assert p.placements[k].nodeId == NodeIds(p.nodes)[k];
    }
    forall k | 0 <= k < |p.edges| ensures EdgePasses(p, p.edges[k]) <==> p.edges[k].edgeType.Text? {
      assert GoodEdge(p, p.edges[k]);
    }
  }

  /** A materialised project passes the import gate exactly when no edge ends up named after a prototype member. */
  lemma MaterializedPassesIff(title: string, documentId: string, ops: seq<Operation>)
    ensures PassesGate(Materialized(title, documentId, ops)) <==>
            forall id :: FinalName(ops, id).Some? ==> !IsInherited(FinalName(ops, id).value)
  {
    var p := Materialized(title, documentId, ops);
    MaterializedIsGood(title, documentId, ops);
    GoodPassesIff(p);
    forall k | 0 <= k < |p.edges|
      ensures FinalName(ops, p.edges[k].id).Some?
      ensures p.edges[k].edgeType.Text? <==> !IsInherited(FinalName(ops, p.edges[k].id).value)
    {
      EdgeAtItsId(p, k);
      TypeToldFromThePatch(title, documentId, ops, p.edges[k].id);
    }
    forall id | FinalName(ops, id).Some? ensures exists k :: 0 <= k < |p.edges| && p.edges[k].id == id {
      TypeToldFromThePatch(title, documentId, ops, id);
      assert p.edges[Position(EdgeIds(p.edges), id)].id == id;
    }
  }

  lemma EdgeAtItsId(p: Project, k: nat)
    requires Good(p) && k < |p.edges|
    ensures EdgeAt(p, p.edges[k].id) == Some(p.edges[k])
  {
    assert EdgeIds(p.edges)[k] == p.edges[k].id;
    assert Position(EdgeIds(p.edges), p.edges[k].id) == k;
  }

  lemma ToStringIsInherited()
    ensures IsInherited("toString") && Converge("toString") == Some(Inherited("toString"))
  {
    var name := "toString";
    assert |name| == 8 && name[0] == 't';
    assert name !in EDGE_TYPES;
    assert name !in LEGACY_EDGE_TO_OPERATOR;
    assert OBJECT_MEMBERS[1] == name;
  }

  /** A well-typed patch whose project the gate refuses: an edge of type "toString". */
  lemma ToStringEdgeIsRefused()
    ensures var ops := [AddNode("n", "note", "", None, None, None), AddEdge("e", "toString", "n", "n", None)];
            !PassesGate(Materialized("", "d", ops))
  {
    ToStringIsInherited();
    assert NODE_TYPES[13] == "note";
    OneNodeOneEdge(AddNode("n", "note", "", None, None, None), AddEdge("e", "toString", "n", "n", None));
  }

  lemma OneNodeOneEdge(node: Operation, edge: Operation)
    requires node.AddNode? && node.nodeType in NODE_TYPES && edge.AddEdge? && edge.source == node.id == edge.target
    requires IsInherited(edge.edgeType)
    ensures !PassesGate(Materialized("", "d", [node, edge]))
  {
    var ops := [node, edge];
    assert node in ops && node.id in AddedNodes(ops);
    assert ops[..1] == [node] && [node][..0] == [];
    assert FirstEdge(AddedNodes(ops), [node], edge.id) == None;
    assert FirstEdge(AddedNodes(ops), ops, edge.id) == Some(edge);
    assert LastName([node], edge.id) == LastName([], edge.id);
    assert LastName(ops, edge.id) == LastName([node], edge.id);
    assert FinalName(ops, edge.id) == Some(edge.edgeType);
    MaterializedPassesIff("", "d", ops);
  }

  const NOTE: Node := Node("n", "note", "", "", [], map[])
  const NAMED_EDGE: Edge := Edge("e", Text("toString"), "n", "n", None, None)

  /** A project with an edge of type "toString" passes the gate, and no longer does once migrated. */
  lemma ToStringPassesUntilMigrated()
    ensures var p := Project(2, "p", "", [NOTE], [NAMED_EDGE], [], []);
            PassesGate(p) && !PassesGate(Migrate(p))
  {
    var p := Project(2, "p", "", [NOTE], [NAMED_EDGE], [], []);
    ToStringIsInherited();
    assert NODE_TYPES[13] == "note";
    assert NodeIds(p.nodes)[0] == "n";
    assert EdgePasses(p, NAMED_EDGE);
    assert PassesGate(p);
    MigratedPassesIff(p);
    assert p.edges[0] == NAMED_EDGE;
  }
}
