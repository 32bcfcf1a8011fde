/** The materialised project told from the patch as it stands: which nodes and edges, and each of their fields. */
module PatchReading {
  import opened Wrappers
  import opened CanonicalJson
  import opened PatchProject

  // ---- The reading ----

  // The ids of the nodes a patch adds.
  ghost function AddedNodes(ops: seq<Operation>): set<string> {
    set op | op in ops && op.AddNode? && op.nodeType in NODE_TYPES :: op.id
  }

  // The first operation that really adds node id.
  function FirstNode(ops: seq<Operation>, id: string): (r: Option<Operation>)
    ensures r.Some? ==> r.value.AddNode? && r.value.id == id && r.value.nodeType in NODE_TYPES
  {
    if ops == [] then None
    else
      var before, op := FirstNode(ops[..|ops| - 1], id), ops[|ops| - 1];
      if before.Some? then before
      else if op.AddNode? && op.id == id && op.nodeType in NODE_TYPES then Some(op) else None
  }

  // The first operation that really adds edge id.
  ghost function FirstEdge(nodeIds: set<string>, ops: seq<Operation>, id: string): (r: Option<Operation>)
    ensures r.Some? ==> r.value.AddEdge? && r.value.id == id && Converge(r.value.edgeType).Some?
    ensures r.Some? ==> r.value.source in nodeIds && r.value.target in nodeIds
  {
    if ops == [] then None
    else
      var before, op := FirstEdge(nodeIds, ops[..|ops| - 1], id), ops[|ops| - 1];
      if before.Some? then before
      else if op.AddEdge? && op.id == id && Converge(op.edgeType).Some? && op.source in nodeIds && op.target in nodeIds
      then Some(op) else None
  }

  // The last value that updates of node id give, where f picks it from the changes.
  function LastNodeChange<T>(ops: seq<Operation>, id: string, f: NodeChanges -> Option<T>): Option<T> {
    if ops == [] then None
    else
      var op := ops[|ops| - 1];
      if op.UpdateNode? && op.id == id && f(op.nodeChanges).Some? then f(op.nodeChanges)
      else LastNodeChange(ops[..|ops| - 1], id, f)
  }

  function LastEdgeChange<T>(ops: seq<Operation>, id: string, f: EdgeChanges -> Option<T>): Option<T> {
    if ops == [] then None
    else
      var op := ops[|ops| - 1];
      if op.UpdateEdge? && op.id == id && f(op.edgeChanges).Some? then f(op.edgeChanges)
      else LastEdgeChange(ops[..|ops| - 1], id, f)
  }

  function NodeAt(p: Project, id: string): Option<Node> {
    var k := Position(NodeIds(p.nodes), id);
    if k < |p.nodes| then Some(p.nodes[k]) else None
  }

  function EdgeAt(p: Project, id: string): Option<Edge> {
    var k := Position(EdgeIds(p.edges), id);
    if k < |p.edges| then Some(p.edges[k]) else None
  }

  function NewNode(op: Operation): Node
    requires op.AddNode?
  {
    Node(op.id, op.nodeType, op.title, op.body.GetOr(""), op.tags.GetOr([]), op.data.GetOr(map[]))
  }

  function NewEdge(op: Operation): Edge
    requires op.AddEdge? && Converge(op.edgeType).Some?
  {
    Edge(op.id, Converge(op.edgeType).value, op.source, op.target, op.note, None)
  }

  ghost function NodeSet(p: Project): set<string> {
    set x | x in NodeIds(p.nodes)
  }

  // ---- Phase by phase ----

  lemma {:induction false} RunAppend(p: Project, a: seq<Operation>, b: seq<Operation>)
    ensures Run(p, a + b) == Run(Run(p, a), b)
  {
    if b == [] {
      assert a + b == a;
    } else {
      assert (a + b)[..|a + b| - 1] == a + b[..|b| - 1];
      RunAppend(p, a, b[..|b| - 1]);
    }
  }

  lemma {:induction false} PhaseKeepsNodes<T>(ops: seq<Operation>, id: string, f: NodeChanges -> Option<T>)
    ensures FirstNode(OfPhase(ops, 0), id) == FirstNode(ops, id)
    ensures LastNodeChange(OfPhase(ops, 1), id, f) == LastNodeChange(ops, id, f)
  {
    if ops != [] { PhaseKeepsNodes(ops[..|ops| - 1], id, f); }
  }

  lemma {:induction false} PhaseKeepsFirstEdge(nodeIds: set<string>, ops: seq<Operation>, id: string)
    ensures FirstEdge(nodeIds, OfPhase(ops, 2), id) == FirstEdge(nodeIds, ops, id)
  {
    if ops != [] { PhaseKeepsFirstEdge(nodeIds, ops[..|ops| - 1], id); }
  }

  lemma {:induction false} PhaseKeepsEdgeChanges<T>(ops: seq<Operation>, id: string, f: EdgeChanges -> Option<T>)
    ensures LastEdgeChange(OfPhase(ops, 3), id, f) == LastEdgeChange(ops, id, f)
  {
    if ops != [] { PhaseKeepsEdgeChanges(ops[..|ops| - 1], id, f); }
  }

  lemma NodeAtAppend(p: Project, n: Node, q: Project, id: string)
    requires n.id !in NodeIds(p.nodes) && q.nodes == p.nodes + [n]
    ensures NodeAt(q, id) == if id == n.id then Some(n) else NodeAt(p, id)
  {
    assert NodeIds(q.nodes) == NodeIds(p.nodes) + [n.id];
    var k := Position(NodeIds(p.nodes), id);
    if k < |p.nodes| { assert NodeIds(q.nodes)[k] == id; }
  }

  lemma NodeAtUpdate(p: Project, k: nat, n: Node, q: Project, id: string)
    requires k < |p.nodes| && k == Position(NodeIds(p.nodes), n.id) && q.nodes == p.nodes[k := n]
    ensures NodeAt(q, id) == if id == n.id then Some(n) else NodeAt(p, id)
  {
    assert NodeIds(q.nodes) == NodeIds(p.nodes);
  }

  lemma EdgeAtAppend(p: Project, e: Edge, q: Project, id: string)
    requires e.id !in EdgeIds(p.edges) && q.edges == p.edges + [e]
    ensures EdgeAt(q, id) == if id == e.id then Some(e) else EdgeAt(p, id)
  {
    assert EdgeIds(q.edges) == EdgeIds(p.edges) + [e.id];
    var k := Position(EdgeIds(p.edges), id);
    if k < |p.edges| { assert EdgeIds(q.edges)[k] == id; }
  }

  lemma EdgeAtUpdate(p: Project, k: nat, e: Edge, q: Project, id: string)
    requires k < |p.edges| && k == Position(EdgeIds(p.edges), e.id) && q.edges == p.edges[k := e]
    ensures EdgeAt(q, id) == if id == e.id then Some(e) else EdgeAt(p, id)
  {
    assert EdgeIds(q.edges) == EdgeIds(p.edges);
  }

  lemma {:induction false} AddingNodes(p: Project, ops: seq<Operation>, id: string)
    requires p.nodes == [] && forall i :: 0 <= i < |ops| ==> Phase(ops[i]) == 0
    ensures Run(p, ops).edges == p.edges
    ensures FirstNode(ops, id).None? ==> NodeAt(Run(p, ops), id).None?
    ensures FirstNode(ops, id).Some? ==> NodeAt(Run(p, ops), id) == Some(NewNode(FirstNode(ops, id).value))
  {
    if ops != [] {
      var rest, op := ops[..|ops| - 1], ops[|ops| - 1];
      AddingNodes(p, rest, id);
      AddingNodes(p, rest, op.id);
      var q := Run(p, rest);
      if Applied(q, op) != q { NodeAtAppend(q, NewNode(op), Applied(q, op), id); }
    }
  }

  // f reads off the changes what g reads off the changed node.
  ghost predicate NodeField<T(!new)>(f: NodeChanges -> Option<T>, g: Node -> T) {
    forall n, c :: g(ChangedNode(n, c)) == f(c).GetOr(g(n))
  }

  ghost predicate EdgeField<T(!new)>(f: EdgeChanges -> Option<T>, g: Edge -> T) {
    forall e, c :: g(ChangedEdge(e, c)) == f(c).GetOr(g(e))
  }

  lemma {:induction false} UpdatingNodes<T(!new)>(p: Project, ops: seq<Operation>, id: string,
                                                   f: NodeChanges -> Option<T>, g: Node -> T)
    requires NodeField(f, g) && forall i :: 0 <= i < |ops| ==> Phase(ops[i]) == 1
    ensures Run(p, ops).edges == p.edges && NodeIds(Run(p, ops).nodes) == NodeIds(p.nodes)
    ensures NodeAt(Run(p, ops), id).Some? <==> NodeAt(p, id).Some?
    ensures NodeAt(p, id).Some? ==>
              NodeAt(Run(p, ops), id).value.nodeType == NodeAt(p, id).value.nodeType &&
              g(NodeAt(Run(p, ops), id).value) == LastNodeChange(ops, id, f).GetOr(g(NodeAt(p, id).value))
  {
    if ops != [] {
      var rest, op := ops[..|ops| - 1], ops[|ops| - 1];
      UpdatingNodes(p, rest, id, f, g);
      UpdatingOneNode(Run(p, rest), op, id, f, g);
    }
  }

  lemma UpdatingOneNode<T(!new)>(q: Project, op: Operation, id: string, f: NodeChanges -> Option<T>, g: Node -> T)
    requires NodeField(f, g) && op.UpdateNode?
    ensures Applied(q, op).edges == q.edges && NodeIds(Applied(q, op).nodes) == NodeIds(q.nodes)
    ensures NodeAt(Applied(q, op), id).Some? <==> NodeAt(q, id).Some?
    ensures NodeAt(q, id).Some? ==>
              NodeAt(Applied(q, op), id).value.nodeType == NodeAt(q, id).value.nodeType &&
              g(NodeAt(Applied(q, op), id).value) ==
                if op.id == id then f(op.nodeChanges).GetOr(g(NodeAt(q, id).value)) else g(NodeAt(q, id).value)
  {
    var k := Position(NodeIds(q.nodes), op.id);
    assert NodeIds(Applied(q, op).nodes) == NodeIds(q.nodes);
    if k < |q.nodes| { NodeAtUpdate(q, k, ChangedNode(q.nodes[k], op.nodeChanges), Applied(q, op), id); }
  }

  lemma {:induction false} AddingEdges(p: Project, ops: seq<Operation>, id: string)
    requires p.edges == [] && forall i :: 0 <= i < |ops| ==> Phase(ops[i]) == 2
    ensures Run(p, ops).nodes == p.nodes
    ensures FirstEdge(NodeSet(p), ops, id).None? ==> EdgeAt(Run(p, ops), id).None?
    ensures FirstEdge(NodeSet(p), ops, id).Some? ==>
            EdgeAt(Run(p, ops), id) == Some(NewEdge(FirstEdge(NodeSet(p), ops, id).value))
  {
    if ops != [] {
      var rest, op := ops[..|ops| - 1], ops[|ops| - 1];
      AddingEdges(p, rest, id);
      AddingEdges(p, rest, op.id);
      var q := Run(p, rest);
      assert forall x :: x in NodeIds(q.nodes) <==> x in NodeSet(p);
      if Applied(q, op) != q { EdgeAtAppend(q, NewEdge(op), Applied(q, op), id); }
    }
  }

  lemma {:induction false} UpdatingEdges<T(!new)>(p: Project, ops: seq<Operation>, id: string,
                                                   f: EdgeChanges -> Option<T>, g: Edge -> T)
    requires EdgeField(f, g) && forall i :: 0 <= i < |ops| ==> Phase(ops[i]) == 3
    ensures Run(p, ops).nodes == p.nodes
    ensures EdgeAt(Run(p, ops), id).Some? <==> EdgeAt(p, id).Some?
    ensures EdgeAt(p, id).Some? ==>
              var before, after := EdgeAt(p, id).value, EdgeAt(Run(p, ops), id).value;
              after.source == before.source && after.target == before.target &&
              g(after) == LastEdgeChange(ops, id, f).GetOr(g(before))
  {
    if ops != [] {
      var rest, op := ops[..|ops| - 1], ops[|ops| - 1];
      UpdatingEdges(p, rest, id, f, g);
      var q := Run(p, rest);
      var k := Position(EdgeIds(q.edges), op.id);
      if k < |q.edges| { EdgeAtUpdate(q, k, ChangedEdge(q.edges[k], op.edgeChanges), Applied(q, op), id); }
    }
  }

  lemma {:induction false} FirstNodeIff(ops: seq<Operation>, id: string)
    ensures FirstNode(ops, id).Some? <==> id in AddedNodes(ops)
  {
    if ops != [] {
      var rest, op := ops[..|ops| - 1], ops[|ops| - 1];
      assert ops == rest + [op];
      FirstNodeIff(rest, id);
      if id in AddedNodes(rest) {
        var o :| o in rest && o.AddNode? && o.nodeType in NODE_TYPES && o.id == id;
        assert o in ops;
      }
      if id in AddedNodes(ops) {
        var o :| o in ops && o.AddNode? && o.nodeType in NODE_TYPES && o.id == id;
        assert o == op || o in rest;
      }
    }
  }

  // The project after each phase, with what the phases before an edge's leave alone.
  lemma NodesAfterTwoPhases<T(!new)>(p0: Project, ops: seq<Operation>, id: string, f: NodeChanges -> Option<T>,
                                     g: Node -> T)
    requires NodeField(f, g) && p0.nodes == [] && p0.edges == []
    ensures var p2 := Run(Run(p0, OfPhase(ops, 0)), OfPhase(ops, 1));
            p2.edges == [] && (NodeAt(p2, id).Some? <==> FirstNode(ops, id).Some?) &&
            (id in NodeSet(p2) <==> id in AddedNodes(ops)) &&
            (FirstNode(ops, id).Some? ==>
               NodeAt(p2, id).value.nodeType == FirstNode(ops, id).value.nodeType &&
               g(NodeAt(p2, id).value) == LastNodeChange(ops, id, f).GetOr(g(NewNode(FirstNode(ops, id).value))))
  {
    PhaseKeepsNodes(ops, id, f);
    AddingNodes(p0, OfPhase(ops, 0), id);
    UpdatingNodes(Run(p0, OfPhase(ops, 0)), OfPhase(ops, 1), id, f, g);
    FirstNodeIff(ops, id);
  }

  lemma InPhases(title: string, documentId: string, ops: seq<Operation>)
    ensures Materialized(title, documentId, ops) ==
            Run(Run(Run(Run(Start(title, documentId), OfPhase(ops, 0)), OfPhase(ops, 1)), OfPhase(ops, 2)),
                OfPhase(ops, 3))
  {
    var o0, o1, o2, o3 := OfPhase(ops, 0), OfPhase(ops, 1), OfPhase(ops, 2), OfPhase(ops, 3);
    var p := Start(title, documentId);
    SortedIsPhases(ops);
    RunAppend(p, o0, o1 + (o2 + o3));
    RunAppend(Run(p, o0), o1, o2 + o3);
    RunAppend(Run(Run(p, o0), o1), o2, o3);
  }

  /** A node's field is what the last update gives it, or else the first operation that adds the node. */
  lemma NodeToldFromThePatch<T(!new)>(title: string, documentId: string, ops: seq<Operation>, id: string,
                                      f: NodeChanges -> Option<T>, g: Node -> T)
    requires NodeField(f, g)
    ensures var node, first := NodeAt(Materialized(title, documentId, ops), id), FirstNode(ops, id);
            (node.Some? <==> first.Some?) && (first.Some? <==> id in AddedNodes(ops)) &&
            (first.Some? ==> node.value.nodeType == first.value.nodeType &&
                             g(node.value) == LastNodeChange(ops, id, f).GetOr(g(NewNode(first.value))))
  {
    var p0 := Start(title, documentId);
    var p2 := Run(Run(p0, OfPhase(ops, 0)), OfPhase(ops, 1));
    InPhases(title, documentId, ops);
    NodesAfterTwoPhases(p0, ops, id, f, g);
    FirstNodeIff(ops, id);
    AddingEdges(p2, OfPhase(ops, 2), id);
    KeepsNodes(Run(p2, OfPhase(ops, 2)), OfPhase(ops, 3));
  }

  lemma {:induction false} KeepsNodes(p: Project, ops: seq<Operation>)
    requires forall i :: 0 <= i < |ops| ==> Phase(ops[i]) == 3
    ensures Run(p, ops).nodes == p.nodes
  {
    if ops != [] { KeepsNodes(p, ops[..|ops| - 1]); }
  }

  function BeforeEdges(title: string, documentId: string, ops: seq<Operation>): Project {
    Run(Run(Start(title, documentId), OfPhase(ops, 0)), OfPhase(ops, 1))
  }

  lemma NodeSetAt(title: string, documentId: string, ops: seq<Operation>, id: string)
    ensures BeforeEdges(title, documentId, ops).edges == []
    ensures id in NodeSet(BeforeEdges(title, documentId, ops)) <==> id in AddedNodes(ops)
  {
    NodesAfterTwoPhases(Start(title, documentId), ops, id, PickTitle, TitleOf);
  }

  lemma NodeSetBeforeEdges(title: string, documentId: string, ops: seq<Operation>)
    ensures BeforeEdges(title, documentId, ops).edges == []
    ensures NodeSet(BeforeEdges(title, documentId, ops)) == AddedNodes(ops)
  {
    NodeSetAt(title, documentId, ops, "");
    var s, t := NodeSet(BeforeEdges(title, documentId, ops)), AddedNodes(ops);
    forall id ensures id in s <==> id in t {
      NodeSetAt(title, documentId, ops, id);
    }
  }

  /**
    An edge's field is what the last update gives it, or else the first operation that adds the edge; its ends never
    move.
  */
  lemma EdgeToldFromThePatch<T(!new)>(title: string, documentId: string, ops: seq<Operation>, id: string,
                                      f: EdgeChanges -> Option<T>, g: Edge -> T)
    requires EdgeField(f, g)
    ensures var edge, first := EdgeAt(Materialized(title, documentId, ops), id), FirstEdge(AddedNodes(ops), ops, id);
            (edge.Some? <==> first.Some?) &&
            (first.Some? ==> edge.value.source == first.value.source && edge.value.target == first.value.target &&
                             g(edge.value) == LastEdgeChange(ops, id, f).GetOr(g(NewEdge(first.value))))
  {
    var p2 := BeforeEdges(title, documentId, ops);
    InPhases(title, documentId, ops);
    NodeSetBeforeEdges(title, documentId, ops);
    PhaseKeepsFirstEdge(AddedNodes(ops), ops, id);
    PhaseKeepsEdgeChanges(ops, id, f);
    AddingEdges(p2, OfPhase(ops, 2), id);
    UpdatingEdges(Run(p2, OfPhase(ops, 2)), OfPhase(ops, 3), id, f, g);
  }

  // ---- The fields ----

  const PickTitle: NodeChanges -> Option<string> := (c: NodeChanges) => c.title
  const TitleOf: Node -> string := (n: Node) => n.title

  const PickBody: NodeChanges -> Option<string> := (c: NodeChanges) => c.body
  const BodyOf: Node -> string := (n: Node) => n.body

  // Tags count only when every one of them is a text.
  const PickTags: NodeChanges -> Option<seq<string>> :=
    (c: NodeChanges) => if c.tags.Some? then AllTexts(c.tags.value) else None
  const TagsOf: Node -> seq<string> := (n: Node) => n.tags

  function PickDatum(k: string, c: NodeChanges): Option<Option<Value>> {
    if c.data.Some? && k in c.data.value then Some(Some(c.data.value[k])) else None
  }

  function DatumOf(k: string, n: Node): Option<Value> {
    if k in n.data then Some(n.data[k]) else None
  }

  const PickNote: EdgeChanges -> Option<Option<string>> :=
    (c: EdgeChanges) => if c.note.Some? then Some(c.note) else None
  const NoteOf: Edge -> Option<string> := (e: Edge) => e.note

  // A confidence counts only within [0, 1].
  const PickConfidence: EdgeChanges -> Option<Option<real>> :=
    (c: EdgeChanges) => if c.confidence.Some? && 0.0 <= c.confidence.value <= 1.0 then Some(c.confidence) else None
  const ConfidenceOf: Edge -> Option<real> := (e: Edge) => e.confidence

  // A type counts only when it converges.
  const PickName: EdgeChanges -> Option<string> :=
    (c: EdgeChanges) => if c.edgeType.Some? && Converge(c.edgeType.value).Some? then c.edgeType else None

  /** Title, body and tags of a node, told from the patch. */
  lemma NodeFieldsTold(title: string, documentId: string, ops: seq<Operation>, id: string)
    requires FirstNode(ops, id).Some?
    ensures var node, first := NodeAt(Materialized(title, documentId, ops), id), FirstNode(ops, id).value;
            node.Some? && node.value.title == LastNodeChange(ops, id, PickTitle).GetOr(first.title) &&
            node.value.body == LastNodeChange(ops, id, PickBody).GetOr(first.body.GetOr("")) &&
            node.value.tags == LastNodeChange(ops, id, PickTags).GetOr(first.tags.GetOr([]))
  {
    NodeToldFromThePatch(title, documentId, ops, id, PickTitle, TitleOf);
    NodeToldFromThePatch(title, documentId, ops, id, PickBody, BodyOf);
    NodeToldFromThePatch(title, documentId, ops, id, PickTags, TagsOf);
  }

  /** Every single datum of a node, told from the patch: updates add to the data, key by key. */
  lemma NodeDatumTold(title: string, documentId: string, ops: seq<Operation>, id: string, k: string)
    requires FirstNode(ops, id).Some?
    ensures var node, first := NodeAt(Materialized(title, documentId, ops), id), FirstNode(ops, id).value;
            node.Some? && DatumOf(k, node.value) ==
              LastNodeChange(ops, id, c => PickDatum(k, c)).GetOr(DatumOf(k, NewNode(first)))
  {
    var pick, datum := (c: NodeChanges) => PickDatum(k, c), (n: Node) => DatumOf(k, n);
    NodeToldFromThePatch(title, documentId, ops, id, pick, datum);
  }

  /** Ends, note and confidence of an edge, told from the patch. */
  lemma EdgeFieldsTold(title: string, documentId: string, ops: seq<Operation>, id: string)
    requires FirstEdge(AddedNodes(ops), ops, id).Some?
    ensures var edge := EdgeAt(Materialized(title, documentId, ops), id);
            var first := FirstEdge(AddedNodes(ops), ops, id).value;
            edge.Some? && edge.value.source == first.source && edge.value.target == first.target &&
            edge.value.note == LastEdgeChange(ops, id, PickNote).GetOr(first.note) &&
            edge.value.confidence == LastEdgeChange(ops, id, PickConfidence).GetOr(None)
  {
    EdgeToldFromThePatch(title, documentId, ops, id, PickNote, NoteOf);
    EdgeToldFromThePatch(title, documentId, ops, id, PickConfidence, ConfidenceOf);
  }

  // ---- Types ----

  function LastName(ops: seq<Operation>, id: string): Option<string> {
    LastEdgeChange(ops, id, PickName)
  }

  // The type name edge id ends up with.
  ghost function FinalName(ops: seq<Operation>, id: string): Option<string> {
    var first := FirstEdge(AddedNodes(ops), ops, id);
    if first.Some? then Some(LastName(ops, id).GetOr(first.value.edgeType)) else None
  }

  const PickType: EdgeChanges -> Option<TypeValue> :=
    (c: EdgeChanges) => if c.edgeType.Some? then Converge(c.edgeType.value) else None
  const TypeOf: Edge -> TypeValue := (e: Edge) => e.edgeType

  lemma {:induction false} LastTypeIsLastName(ops: seq<Operation>, id: string)
    ensures LastName(ops, id).Some? <==> LastEdgeChange(ops, id, PickType).Some?
    ensures LastName(ops, id).Some? ==> Converge(LastName(ops, id).value) == LastEdgeChange(ops, id, PickType)
  {
    if ops != [] { LastTypeIsLastName(ops[..|ops| - 1], id); }
  }

  /** The type of an edge is what its final type name converges to. */
  lemma TypeToldFromThePatch(title: string, documentId: string, ops: seq<Operation>, id: string)
    ensures var edge := EdgeAt(Materialized(title, documentId, ops), id);
            (edge.Some? <==> FinalName(ops, id).Some?) &&
            (edge.Some? ==> Converge(FinalName(ops, id).value) == Some(edge.value.edgeType))
  {
    EdgeToldFromThePatch(title, documentId, ops, id, PickType, TypeOf);
    LastTypeIsLastName(ops, id);
  }
}
