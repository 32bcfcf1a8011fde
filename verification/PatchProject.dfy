/**
  Materialising a review patch into a project: the operations sorted into four phases,
  and performed on lists of nodes, edges and placements.

  An operation that names something missing, or something there already, is skipped.
*/
module PatchProject {
  import opened Wrappers
  import opened CanonicalJson

  const NODE_TYPES: seq<string> := [
    "question", "concept", "variable", "hypothesis", "method", "evidence", "paper", "dataset",
    "experiment", "result", "metric", "formula", "artifact", "note"]

  const EDGE_TYPES: seq<string> := ["T", "K", "I", "M", "Q"]

  const LEGACY_EDGE_TO_OPERATOR: map<string, string> := map[
    "causes" := "K", "correlates" := "K", "supports" := "K", "contradicts" := "K",
    "depends_on" := "T", "derived_from" := "T", "uses" := "T", "measures" := "T",
    "part_of" := "M", "controls" := "K", "mediates" := "K", "moderates" := "K"]

  // The names under which every table object has a member of its prototype.
  const OBJECT_MEMBERS: seq<string> := [
    "constructor", "toString", "valueOf", "toLocaleString", "hasOwnProperty", "isPrototypeOf",
    "propertyIsEnumerable", "__proto__", "__defineGetter__", "__defineSetter__",
    "__lookupGetter__", "__lookupSetter__"]

  // What stands where an edge type should: a text, or a member of the table object's prototype.
  datatype TypeValue = Text(text: string) | Inherited(name: string)

  predicate IsInherited(name: string) {
    name !in EDGE_TYPES && name !in LEGACY_EDGE_TO_OPERATOR && name in OBJECT_MEMBERS
  }

  // The table lookup, prototype included.
  function Converge(name: string): (r: Option<TypeValue>)
    ensures r.Some? && r.value.Inherited? <==> IsInherited(name)
  {
    if name in EDGE_TYPES then Some(Text(name))
    else if name in LEGACY_EDGE_TO_OPERATOR then Some(Text(LEGACY_EDGE_TO_OPERATOR[name]))
    else if name in OBJECT_MEMBERS then Some(Inherited(name))
    else None
  }

  lemma ConvergedIsOperator(name: string)
    requires Converge(name).Some? && Converge(name).value.Text?
    ensures Converge(name).value.text in EDGE_TYPES
    ensures Converge(Converge(name).value.text) == Converge(name)
  {
    assert EDGE_TYPES[0] == "T" && EDGE_TYPES[1] == "K" && EDGE_TYPES[3] == "M";
    assert "T" in EDGE_TYPES && "K" in EDGE_TYPES && "M" in EDGE_TYPES;
  }

  datatype Node = Node(id: string, nodeType: string, title: string, body: string, tags: seq<string>,
                       data: map<string, Value>)

  datatype Edge = Edge(id: string, edgeType: TypeValue, source: string, target: string, note: Option<string>,
                       confidence: Option<real>)

  datatype Placement = Placement(id: string, nodeId: string, x: int, y: int, width: int, height: int)

  // A scenario's edge overrides; None where the override leaves the type alone.
  datatype Scenario = Scenario(edgeOverrides: map<string, Option<TypeValue>>)

  datatype Project = Project(
    schemaVersion: int,
    id: string,
    title: string,
    nodes: seq<Node>,
    edges: seq<Edge>,
    placements: seq<Placement>,
    scenarios: seq<Scenario>
  )

  // Changes of other types than these are ignored; a tag that is not a text is None.
  datatype NodeChanges = NodeChanges(
    title: Option<string>, body: Option<string>, tags: Option<seq<Option<string>>>, data: Option<map<string, Value>>)

  datatype EdgeChanges = EdgeChanges(note: Option<string>, edgeType: Option<string>, confidence: Option<real>)

  datatype Operation =
    | AddNode(id: string, nodeType: string, title: string, body: Option<string>, tags: Option<seq<string>>,
              data: Option<map<string, Value>>)
    | UpdateNode(id: string, nodeChanges: NodeChanges)
    | AddEdge(id: string, edgeType: string, source: string, target: string, note: Option<string>)
    | UpdateEdge(id: string, edgeChanges: EdgeChanges)

  // ---- Finding by id ----

  function NodeIds(nodes: seq<Node>): (r: seq<string>)
    ensures |r| == |nodes| && forall i :: 0 <= i < |r| ==> r[i] == nodes[i].id
  {
    seq(|nodes|, i requires 0 <= i < |nodes| => nodes[i].id)
  }

  function EdgeIds(edges: seq<Edge>): (r: seq<string>)
    ensures |r| == |edges| && forall i :: 0 <= i < |r| ==> r[i] == edges[i].id
  {
    seq(|edges|, i requires 0 <= i < |edges| => edges[i].id)
  }

  // The first position of x, or the length when it is absent.
  function Position(s: seq<string>, x: string): (n: nat)
    ensures n <= |s| && (n < |s| ==> s[n] == x) && forall i :: 0 <= i < n ==> s[i] != x
    ensures n < |s| <==> x in s
  {
    if s == [] || s[0] == x then 0 else 1 + Position(s[1..], x)
  }

  // ---- One operation ----

  function PlacementAt(index: nat, nodeId: string): Placement {
    Placement("placement-" + nodeId, nodeId, index % 6 * 220, index / 6 * 150, 176, 118)
  }

  function AllTexts(tags: seq<Option<string>>): Option<seq<string>> {
    if forall i :: 0 <= i < |tags| ==> tags[i].Some? then
      Some(seq(|tags|, i requires 0 <= i < |tags| => tags[i].GetOr("")))
    else None
  }

  function ChangedNode(n: Node, c: NodeChanges): Node {
    n.(title := c.title.GetOr(n.title),
       body := c.body.GetOr(n.body),
       tags := if c.tags.Some? then AllTexts(c.tags.value).GetOr(n.tags) else n.tags,
       data := n.data + c.data.GetOr(map[]))
  }

  function ChangedEdge(e: Edge, c: EdgeChanges): Edge {
    e.(note := if c.note.Some? then c.note else e.note,
       edgeType := if c.edgeType.Some? then Converge(c.edgeType.value).GetOr(e.edgeType) else e.edgeType,
       confidence := if c.confidence.Some? && 0.0 <= c.confidence.value <= 1.0 then c.confidence else e.confidence)
  }

  function Applied(p: Project, op: Operation): Project {
    match op
    case AddNode(id, nodeType, title, body, tags, data) =>
      if id in NodeIds(p.nodes) || nodeType !in NODE_TYPES then p
      else p.(nodes := p.nodes + [Node(id, nodeType, title, body.GetOr(""), tags.GetOr([]), data.GetOr(map[]))],
              placements := p.placements + [PlacementAt(|p.nodes|, id)])
    case UpdateNode(id, c) =>
      var k := Position(NodeIds(p.nodes), id);
      if k == |p.nodes| then p else p.(nodes := p.nodes[k := ChangedNode(p.nodes[k], c)])
    case AddEdge(id, edgeType, source, target, note) =>
      if id in EdgeIds(p.edges) || Converge(edgeType).None? ||
         source !in NodeIds(p.nodes) || target !in NodeIds(p.nodes) then p
      else p.(edges := p.edges + [Edge(id, Converge(edgeType).value, source, target, note, None)])
    case UpdateEdge(id, c) =>
      var k := Position(EdgeIds(p.edges), id);
      if k == |p.edges| then p else p.(edges := p.edges[k := ChangedEdge(p.edges[k], c)])
  }

  function Run(p: Project, ops: seq<Operation>): Project {
    if ops == [] then p else Applied(Run(p, ops[..|ops| - 1]), ops[|ops| - 1])
  }

  // ---- Phases ----

  function Phase(op: Operation): nat {
    match op
    case AddNode(_, _, _, _, _, _) => 0
    case UpdateNode(_, _) => 1
    case AddEdge(_, _, _, _, _) => 2
    case UpdateEdge(_, _) => 3
  }

  // Stable: behind everything of the same phase.
  function InsertByPhase(sorted: seq<Operation>, op: Operation): seq<Operation> {
    if sorted == [] || Phase(sorted[|sorted| - 1]) <= Phase(op) then sorted + [op]
    else InsertByPhase(sorted[..|sorted| - 1], op) + [sorted[|sorted| - 1]]
  }

  function SortByPhase(ops: seq<Operation>): seq<Operation> {
    if ops == [] then [] else InsertByPhase(SortByPhase(ops[..|ops| - 1]), ops[|ops| - 1])
  }

  function OfPhase(ops: seq<Operation>, k: nat): (r: seq<Operation>)
    ensures forall i :: 0 <= i < |r| ==> Phase(r[i]) == k && r[i] in ops
  {
    if ops == [] then []
    else if Phase(ops[|ops| - 1]) == k then OfPhase(ops[..|ops| - 1], k) + [ops[|ops| - 1]]
    else OfPhase(ops[..|ops| - 1], k)
  }

  lemma {:induction false} InsertLandsBehindItsPhase(a: seq<Operation>, b: seq<Operation>, op: Operation)
    requires forall i :: 0 <= i < |a| ==> Phase(a[i]) <= Phase(op)
    requires forall i :: 0 <= i < |b| ==> Phase(b[i]) > Phase(op)
    ensures InsertByPhase(a + b, op) == a + [op] + b
  {
    if b == [] {
      assert a + b == a;
    } else {
      var n := |b| - 1;
      assert (a + b)[..|a + b| - 1] == a + b[..n] && (a + b)[|a + b| - 1] == b[n];
      InsertLandsBehindItsPhase(a, b[..n], op);
      assert b == b[..n] + [b[n]];
    }
  }

  ghost predicate UpTo(s: seq<Operation>, k: nat) {
    forall i :: 0 <= i < |s| ==> Phase(s[i]) <= k
  }

  ghost predicate Above(s: seq<Operation>, k: nat) {
    forall i :: 0 <= i < |s| ==> Phase(s[i]) > k
  }

  lemma Assoc<T>(a: seq<T>, b: seq<T>, c: seq<T>)
    ensures a + (b + c) == a + b + c
  {
  }

  // Behind the first phases a, before the others b, however the whole is bracketed.
  lemma InsertBetween(whole: seq<Operation>, a: seq<Operation>, b: seq<Operation>, op: Operation)
    requires whole == a + b && UpTo(a, Phase(op)) && Above(b, Phase(op))
    ensures InsertByPhase(whole, op) == a + ([op] + b)
  {
    InsertLandsBehindItsPhase(a, b, op);
    Assoc(a, [op], b);
  }

  lemma InsertIntoPhases(p0: seq<Operation>, p1: seq<Operation>, p2: seq<Operation>, p3: seq<Operation>, op: Operation)
    requires UpTo(p0, 0) && UpTo(p1, 1) && UpTo(p2, 2) && UpTo(p3, 3)
    requires Above(p1, 0) && Above(p2, 1) && Above(p3, 2)
    ensures Phase(op) == 0 ==> InsertByPhase(p0 + (p1 + (p2 + p3)), op) == p0 + [op] + (p1 + (p2 + p3))
    ensures Phase(op) == 1 ==> InsertByPhase(p0 + (p1 + (p2 + p3)), op) == p0 + (p1 + [op] + (p2 + p3))
    ensures Phase(op) == 2 ==> InsertByPhase(p0 + (p1 + (p2 + p3)), op) == p0 + (p1 + (p2 + [op] + p3))
    ensures Phase(op) == 3 ==> InsertByPhase(p0 + (p1 + (p2 + p3)), op) == p0 + (p1 + (p2 + (p3 + [op])))
  {
    var whole := p0 + (p1 + (p2 + p3));
    if Phase(op) == 0 {
      InsertBetween(whole, p0, p1 + (p2 + p3), op);
      Assoc(p0, [op], p1 + (p2 + p3));
    } else if Phase(op) == 1 {
      Assoc(p0, p1, p2 + p3);
      InsertBetween(whole, p0 + p1, p2 + p3, op);
      Assoc(p0, p1, [op] + (p2 + p3));
      Assoc(p1, [op], p2 + p3);
    } else if Phase(op) == 2 {
      Assoc(p1, p2, p3);
      Assoc(p0, p1 + p2, p3);
      InsertBetween(whole, p0 + (p1 + p2), p3, op);
      Assoc(p0, p1 + p2, [op] + p3);
      Assoc(p1, p2, [op] + p3);
      Assoc(p2, [op], p3);
    } else {
      InsertBetween(whole, whole, [], op);
      Assoc(p0, p1 + (p2 + p3), [op]);
      Assoc(p1, p2 + p3, [op]);
      Assoc(p2, p3, [op]);
    }
  }

  /** The stable sort puts the phases one after the other, each in its original order. */
  lemma {:induction false} SortedIsPhases(ops: seq<Operation>)
    ensures SortByPhase(ops) == OfPhase(ops, 0) + (OfPhase(ops, 1) + (OfPhase(ops, 2) + OfPhase(ops, 3)))
  {
    if ops != [] {
      var rest, op := ops[..|ops| - 1], ops[|ops| - 1];
      SortedIsPhases(rest);
      var p0, p1, p2, p3 := OfPhase(rest, 0), OfPhase(rest, 1), OfPhase(rest, 2), OfPhase(rest, 3);
      InsertIntoPhases(p0, p1, p2, p3, op);
      match Phase(op) {
        case 0 => assert OfPhase(ops, 0) == p0 + [op];
        case 1 => assert OfPhase(ops, 1) == p1 + [op];
        case 2 => assert OfPhase(ops, 2) == p2 + [op];
        case _ => assert OfPhase(ops, 3) == p3 + [op];
      }
    }
  }

  // ---- The materialiser ----

  function Start(title: string, documentId: string): Project {
    Project(2, "agent-diff-" + documentId, title, [], [], [], [])
  }

  function Materialized(title: string, documentId: string, ops: seq<Operation>): Project {
    Run(Start(title, documentId), SortByPhase(ops))
  }

  method UpdatedNode(node: Node, c: NodeChanges) returns (n: Node)
    ensures n == ChangedNode(node, c)
  {
    n := node;
    if c.title.Some? { n := n.(title := c.title.value); }
    if c.body.Some? { n := n.(body := c.body.value); }
    if c.tags.Some? && AllTexts(c.tags.value).Some? { n := n.(tags := AllTexts(c.tags.value).value); }
    if c.data.Some? { n := n.(data := n.data + c.data.value); }
  }

  method UpdatedEdge(edge: Edge, c: EdgeChanges) returns (e: Edge)
    ensures e == ChangedEdge(edge, c)
  {
    e := edge;
    if c.note.Some? { e := e.(note := c.note); }
    if c.edgeType.Some? && Converge(c.edgeType.value).Some? { e := e.(edgeType := Converge(c.edgeType.value).value); }
    if c.confidence.Some? && c.confidence.value >= 0.0 && c.confidence.value <= 1.0 {
      e := e.(confidence := c.confidence);
    }
  }

  /** The loop over the sorted operations, pushing to and replacing in the project's lists. */
  method Materialize(title: string, documentId: string, ops: seq<Operation>) returns (p: Project)
    ensures p == Materialized(title, documentId, ops)
  {
    var sorted := SortByPhase(ops);
    p := Start(title, documentId);
    for i := 0 to |sorted|
      invariant p == Run(Start(title, documentId), sorted[..i])
    {
      RunNext(Start(title, documentId), sorted, i);
      p := Perform(p, sorted[i]);
    }
    assert sorted[..|sorted|] == sorted;
  }

  lemma RunNext(p: Project, ops: seq<Operation>, i: nat)
    requires i < |ops|
    ensures Run(p, ops[..i + 1]) == Applied(Run(p, ops[..i]), ops[i])
  {
    assert ops[..i + 1][..i] == ops[..i];
  }

  method Perform(p: Project, op: Operation) returns (q: Project)
    ensures q == Applied(p, op)
  {
    q := p;
    match op {
      case AddNode(id, nodeType, title, body, tags, data) =>
        if id in NodeIds(q.nodes) || nodeType !in NODE_TYPES { return; }
        var index := |q.nodes|;
        q := q.(nodes := q.nodes + [Node(id, nodeType, title, body.GetOr(""), tags.GetOr([]), data.GetOr(map[]))]);
        q := q.(placements := q.placements +
                [Placement("placement-" + id, id, index % 6 * 220, index / 6 * 150, 176, 118)]);
      case UpdateNode(id, c) =>
        var k := Position(NodeIds(q.nodes), id);
        if k == |q.nodes| { return; }
        var node := UpdatedNode(q.nodes[k], c);
        q := q.(nodes := q.nodes[k := node]);
      case AddEdge(id, edgeType, source, target, note) =>
        if id in EdgeIds(q.edges) || Converge(edgeType).None? { return; }
        if source !in NodeIds(q.nodes) || target !in NodeIds(q.nodes) { return; }
        q := q.(edges := q.edges + [Edge(id, Converge(edgeType).value, source, target, note, None)]);
      case UpdateEdge(id, c) =>
        var k := Position(EdgeIds(q.edges), id);
        if k == |q.edges| { return; }
        var edge := UpdatedEdge(q.edges[k], c);
        q := q.(edges := q.edges[k := edge]);
    }
  }

  /** Only the order within each phase matters. */
  lemma OnlyPhaseOrderMatters(title: string, documentId: string, ops: seq<Operation>, others: seq<Operation>)
    requires forall k :: 0 <= k < 4 ==> OfPhase(ops, k) == OfPhase(others, k)
    ensures Materialized(title, documentId, ops) == Materialized(title, documentId, others)
  {
    SortedIsPhases(ops);
    SortedIsPhases(others);
  }

  // ---- What every materialised project keeps ----

  ghost predicate Distinct(s: seq<string>) {
    forall i, j :: 0 <= i < j < |s| ==> s[i] != s[j]
  }

  ghost predicate IsType(t: TypeValue) {
    match t case Text(text) => text in EDGE_TYPES case Inherited(name) => IsInherited(name)
  }

  ghost predicate GoodEdge(p: Project, e: Edge) {
    e.source in NodeIds(p.nodes) && e.target in NodeIds(p.nodes) && IsType(e.edgeType) &&
    (e.confidence.Some? ==> 0.0 <= e.confidence.value <= 1.0)
  }

  ghost predicate GoodNodes(p: Project) {
    Distinct(NodeIds(p.nodes)) && |p.placements| == |p.nodes| &&
    forall k :: 0 <= k < |p.nodes| ==>
      p.nodes[k].nodeType in NODE_TYPES && p.placements[k] == PlacementAt(k, p.nodes[k].id)
  }

  ghost predicate GoodEdges(p: Project) {
    Distinct(EdgeIds(p.edges)) && forall k :: 0 <= k < |p.edges| ==> GoodEdge(p, p.edges[k])
  }

  ghost predicate Good(p: Project) {
    p.schemaVersion == 2 && p.id != "" && p.scenarios == [] && GoodNodes(p) && GoodEdges(p)
  }

  lemma NodesStayGood(p: Project, op: Operation)
    requires GoodNodes(p)
    ensures GoodNodes(Applied(p, op)) && forall id :: id in NodeIds(p.nodes) ==> id in NodeIds(Applied(p, op).nodes)
  {
    var q := Applied(p, op);
    if op.AddNode? && q != p {
      assert NodeIds(q.nodes) == NodeIds(p.nodes) + [op.id];
    } else {
      assert NodeIds(q.nodes) == NodeIds(p.nodes);
    }
  }

  lemma ConvergedIsType(name: string)
    requires Converge(name).Some?
    ensures IsType(Converge(name).value)
  {
    if Converge(name).value.Text? { ConvergedIsOperator(name); }
  }

  lemma ChangedEdgeStaysGood(p: Project, e: Edge, c: EdgeChanges)
    requires GoodEdge(p, e)
    ensures GoodEdge(p, ChangedEdge(e, c))
  {
    if c.edgeType.Some? && Converge(c.edgeType.value).Some? { ConvergedIsType(c.edgeType.value); }
  }

  lemma AddingKeepsEdges(p: Project, e: Edge)
    requires GoodEdges(p) && GoodEdge(p, e) && e.id !in EdgeIds(p.edges)
    ensures GoodEdges(p.(edges := p.edges + [e]))
  {
    assert EdgeIds(p.edges + [e]) == EdgeIds(p.edges) + [e.id];
    assert forall k :: 0 <= k < |p.edges| ==> GoodEdge(p, p.edges[k]);
  }

  lemma ReplacingKeepsEdges(p: Project, k: nat, e: Edge)
    requires GoodEdges(p) && k < |p.edges| && GoodEdge(p, e) && e.id == p.edges[k].id
    ensures GoodEdges(p.(edges := p.edges[k := e]))
  {
    assert EdgeIds(p.edges[k := e]) == EdgeIds(p.edges);
    assert forall i :: 0 <= i < |p.edges| ==> GoodEdge(p, p.edges[i]);
  }

  lemma EdgesStayGood(p: Project, op: Operation)
    requires GoodNodes(p) && GoodEdges(p)
    ensures GoodEdges(Applied(p, op))
  {
    var q := Applied(p, op);
    match op {
      case AddEdge(id, edgeType, source, target, note) =>
        if q != p {
          ConvergedIsType(edgeType);
          AddingKeepsEdges(p, Edge(id, Converge(edgeType).value, source, target, note, None));
        }
      case UpdateEdge(id, c) =>
        var k := Position(EdgeIds(p.edges), id);
        if k < |p.edges| {
          ChangedEdgeStaysGood(p, p.edges[k], c);
          ReplacingKeepsEdges(p, k, ChangedEdge(p.edges[k], c));
        }
      case _ =>
        NodesStayGood(p, op);
        assert q.edges == p.edges;
        assert forall k :: 0 <= k < |p.edges| ==> GoodEdge(p, p.edges[k]);
    }
  }

  lemma {:induction false} RunStaysGood(p: Project, ops: seq<Operation>)
    requires Good(p)
    ensures Good(Run(p, ops))
  {
    if ops != [] {
      RunStaysGood(p, ops[..|ops| - 1]);
      var q := Run(p, ops[..|ops| - 1]);
      NodesStayGood(q, ops[|ops| - 1]);
      EdgesStayGood(q, ops[|ops| - 1]);
    }
  }

  /**
    Whatever the patch: node and edge ids are unique, every endpoint is a node, placement k
    belongs to node k, confidences lie in [0, 1], and types are operators or inherited members.
  */
  lemma MaterializedIsGood(title: string, documentId: string, ops: seq<Operation>)
    ensures Good(Materialized(title, documentId, ops))
  {
    RunStaysGood(Start(title, documentId), SortByPhase(ops));
  }

  ghost predicate Apart(a: Placement, b: Placement) {
    a.x + a.width <= b.x || b.x + b.width <= a.x || a.y + a.height <= b.y || b.y + b.height <= a.y
  }

  lemma GridCellsDiffer(i: nat, j: nat)
    requires i < j
    ensures i % 6 != j % 6 || i / 6 < j / 6
  {
    if i / 6 >= j / 6 { assert i == 6 * (i / 6) + i % 6 && j == 6 * (j / 6) + j % 6; }
  }

  /** No two nodes are placed on top of each other. */
  lemma PlacementsAreApart(title: string, documentId: string, ops: seq<Operation>, i: nat, j: nat)
    requires i < j < |Materialized(title, documentId, ops).placements|
    ensures var placements := Materialized(title, documentId, ops).placements;
            Apart(placements[i], placements[j]) && placements[i].id != placements[j].id
  {
    MaterializedIsGood(title, documentId, ops);
    GridCellsDiffer(i, j);
    var p := Materialized(title, documentId, ops);
    assert NodeIds(p.nodes)[i] != NodeIds(p.nodes)[j];
    assert p.placements[i].id[10..] == p.nodes[i].id && p.placements[j].id[10..] == p.nodes[j].id;
  }

  // ---- Head, grid and types ----

  lemma {:induction false} RunKeepsHead(p: Project, ops: seq<Operation>)
    ensures var q := Run(p, ops);
            q.schemaVersion == p.schemaVersion && q.id == p.id && q.title == p.title && q.scenarios == p.scenarios
  {
    if ops != [] { RunKeepsHead(p, ops[..|ops| - 1]); }
  }

  /** Whatever the patch does, the project bears its title and is named after the document. */
  lemma MaterializedHead(title: string, documentId: string, ops: seq<Operation>)
    ensures var p := Materialized(title, documentId, ops);
            p.schemaVersion == 2 && p.title == title && p.id == "agent-diff-" + documentId && p.scenarios == []
  {
    RunKeepsHead(Start(title, documentId), SortByPhase(ops));
  }

  /**
    The grid: the first node lies at the origin, each next one 220 to the right of the one before it, and after six of
    them at the left again, 150 further down; every node has the same size and its own placement.
  */
  lemma PlacementsFillTheGrid(title: string, documentId: string, ops: seq<Operation>, k: nat)
    requires k < |Materialized(title, documentId, ops).nodes|
    ensures var p := Materialized(title, documentId, ops);
            |p.placements| == |p.nodes| && p.placements[k].nodeId == p.nodes[k].id &&
            p.placements[k].id == "placement-" + p.nodes[k].id &&
            p.placements[k].width == 176 && p.placements[k].height == 118 &&
            (k == 0 ==> p.placements[k].x == 0 && p.placements[k].y == 0) &&
            (k > 0 && k % 6 != 0 ==>
              p.placements[k].x == p.placements[k - 1].x + 220 && p.placements[k].y == p.placements[k - 1].y) &&
            (k > 0 && k % 6 == 0 ==> p.placements[k].x == 0 && p.placements[k].y == p.placements[k - 1].y + 150)
  {
    MaterializedIsGood(title, documentId, ops);
    if k > 0 { NextCell(k); }
  }

  lemma NextCell(k: nat)
    requires k > 0
    ensures if k % 6 != 0 then k % 6 == (k - 1) % 6 + 1 && k / 6 == (k - 1) / 6 else k / 6 == (k - 1) / 6 + 1
  {
  }

  /** Which names become which operator: five keep theirs, seven old ones become K, four T and one M. */
  lemma ConvergesTo(name: string)
    ensures Converge(name) == Some(Text("T")) <==> name in {"T", "depends_on", "derived_from", "uses", "measures"}
    ensures Converge(name) == Some(Text("K")) <==>
            name in {"K", "causes", "correlates", "supports", "contradicts", "controls", "mediates", "moderates"}
    ensures Converge(name) == Some(Text("M")) <==> name in {"M", "part_of"}
    ensures Converge(name) == Some(Text("I")) <==> name == "I"
    ensures Converge(name) == Some(Text("Q")) <==> name == "Q"
    ensures Converge(name).Some? && Converge(name).value.Text? ==> Converge(name).value.text in EDGE_TYPES
    ensures Converge(name) == Some(Inherited(name)) <==>
            name !in EDGE_TYPES && name !in LEGACY_EDGE_TO_OPERATOR &&
            name in {"constructor", "toString", "valueOf", "toLocaleString", "hasOwnProperty", "isPrototypeOf",
                     "propertyIsEnumerable", "__proto__", "__defineGetter__", "__defineSetter__",
                     "__lookupGetter__", "__lookupSetter__"}
  {
    PrototypeNames(name);
    OperatorsKeepTheirNames(name);
    if name !in EDGE_TYPES && name in LEGACY_EDGE_TO_OPERATOR { OldNamesAreNoOperators(name); }
    if Converge(name).Some? && Converge(name).value.Text? { ConvergedIsOperator(name); }
  }

  lemma PrototypeNames(name: string)
    ensures name in OBJECT_MEMBERS <==>
            name in {"constructor", "toString", "valueOf", "toLocaleString", "hasOwnProperty", "isPrototypeOf",
                     "propertyIsEnumerable", "__proto__", "__defineGetter__", "__defineSetter__",
                     "__lookupGetter__", "__lookupSetter__"}
  {
    var m := OBJECT_MEMBERS;
    assert m[0] == "constructor" && m[1] == "toString" && m[2] == "valueOf" && m[3] == "toLocaleString" &&
           m[4] == "hasOwnProperty" && m[5] == "isPrototypeOf" && m[6] == "propertyIsEnumerable";
    assert m[7] == "__proto__" && m[8] == "__defineGetter__" && m[9] == "__defineSetter__" &&
           m[10] == "__lookupGetter__" && m[11] == "__lookupSetter__";
  }

  lemma OperatorsKeepTheirNames(name: string)
    ensures name in EDGE_TYPES <==> name == "T" || name == "K" || name == "I" || name == "M" || name == "Q"
  {
    assert EDGE_TYPES[0] == "T" && EDGE_TYPES[1] == "K" && EDGE_TYPES[2] == "I" && EDGE_TYPES[3] == "M" &&
           EDGE_TYPES[4] == "Q";
  }

  lemma OldNamesAreNoOperators(name: string)
    requires name in LEGACY_EDGE_TO_OPERATOR
    ensures |name| > 1
  {
  }
}
