/** The batch diff: documents of two groups matched by id, diffed in chunks of eight, and summed up. */
module CanvasBatch {
  import opened Wrappers
  import opened Utf8
  import opened CanonicalJson
  import opened CanvasClaims
  import opened CanvasDiff
  import opened CanvasProvenance

  const DOCUMENT_CHUNK: nat := 8

  // A document's project, and the provenance it came with.
  datatype Project = Project(nodes: seq<Entity>, edges: seq<Entity>, evidence: seq<Entity>, given: Option<Given>)

  // The document id as given: None when it is not a text.
  datatype DocInput = DocInput(documentId: Option<string>, project: Project)

  datatype GroupInput = GroupInput(documents: seq<DocInput>, groupId: Option<string>, groupLabel: Option<string>)

  datatype Descriptor = Descriptor(groupId: string, groupLabel: string, documentIds: seq<string>)

  type Documents = map<string, Project>

  datatype DocState = AddedDoc | RemovedDoc | ModifiedDoc | UnchangedDoc

  // The hash pairs of all changed entities by entity key, in byte order of the keys.
  datatype BlockHash = BlockHash(key: string, hashes: (string, string))

  datatype DocResult = DocResult(
    documentId: string,
    state: DocState,
    provenance: Provenance,
    baselineProvenance: Option<Provenance>,
    nodes: Zone,
    edges: Zone,
    evidence: Zone,
    blockHashes: seq<BlockHash>
  )

  datatype Count = Count(added: nat, removed: nat, modified: nat, changed: nat)

  datatype Summary = Summary(documents: Count, nodes: Count, edges: Count, evidence: Count, totalChanges: nat)

  datatype Batch = Batch(
    baseline: Descriptor, comparison: Descriptor, documents: seq<DocResult>, summary: Summary)

  datatype BatchError = BadGroup(why: IndexError) | BadDocument(documentId: string, what: DiffError)

  // Block hash and normalisation are the same for the whole batch.
  datatype Hashing = Hashing(nfc: string -> string, h: string -> string)

  function At(g: Hashing, documentId: string, kind: Kind): Setting {
    Setting(g.nfc, g.h, documentId, kind)
  }

  function TagDocuments(docs: seq<DocInput>): (r: seq<Tagged<Project>>)
    ensures |r| == |docs|
    ensures forall i :: 0 <= i < |r| ==> r[i] == TagDocument(docs[i])
  {
    seq(|docs|, i requires 0 <= i < |docs| => TagDocument(docs[i]))
  }

  function TagDocument(doc: DocInput): Tagged<Project> {
    Tagged(if doc.documentId.Some? then NonEmpty(doc.documentId.value) else None, doc.project)
  }

  function Find(docs: Documents, id: string): Option<Project> {
    if id in docs then Some(docs[id]) else None
  }

  function EntityList(project: Option<Project>, kind: Kind): seq<Entity> {
    match project
    case None => []
    case Some(p) => match kind case Node => p.nodes case Edge => p.edges case Evidence => p.evidence
  }

  function EntitiesOf(project: Option<Project>, kind: Kind): Entities {
    IndexOf(TagEntities(EntityList(project, kind)))
  }

  function ZoneOf(r: DocResult, kind: Kind): Zone {
    match kind case Node => r.nodes case Edge => r.edges case Evidence => r.evidence
  }

  ghost predicate WellFormedDocument(project: Option<Project>) {
    forall kind: Kind, e :: e in EntityList(project, kind) ==> WellFormedEntity(e)
  }

  ghost predicate WellFormedGroup(docs: seq<DocInput>) {
    forall i :: 0 <= i < |docs| ==> WellFormedDocument(Some(docs[i].project))
  }

  // ---- One document ----

  function ZoneSize(z: Zone): nat {
    |z.added| + |z.removed| + |z.modified|
  }

  function DocChanged(r: DocResult): nat {
    ZoneSize(r.nodes) + ZoneSize(r.edges) + ZoneSize(r.evidence)
  }

  ghost predicate ZoneComparable(g: Hashing, id: string, before: Option<Project>, after: Option<Project>, kind: Kind) {
    CanIndex(TagEntities(EntityList(before, kind))) && CanIndex(TagEntities(EntityList(after, kind))) &&
    Comparable(At(g, id, kind), EntitiesOf(before, kind), EntitiesOf(after, kind))
  }

  ghost predicate DocComparable(g: Hashing, id: string, before: Option<Project>, after: Option<Project>) {
    forall kind :: ZoneComparable(g, id, before, after, kind)
  }

  ghost predicate HasZone(g: Hashing, before: Option<Project>, after: Option<Project>, r: DocResult, kind: Kind) {
    IsZoneDiff(At(g, r.documentId, kind), EntitiesOf(before, kind), EntitiesOf(after, kind), ZoneOf(r, kind))
  }

  // The three zones' hash tables in one; a later zone would win.
  function AllHashes(r: DocResult): map<string, (string, string)> {
    r.nodes.hashes + r.edges.hashes + r.evidence.hashes
  }

  function BlockKeys(table: seq<BlockHash>): (r: seq<string>)
    ensures |r| == |table| && forall i :: 0 <= i < |r| ==> r[i] == table[i].key
  {
    seq(|table|, i requires 0 <= i < |table| => table[i].key)
  }

  ghost predicate IsBlockTable(hashes: map<string, (string, string)>, table: seq<BlockHash>) {
    Lists(BlockKeys(table), hashes.Keys) &&
    forall i :: 0 <= i < |table| ==> table[i].key in hashes && table[i].hashes == hashes[table[i].key]
  }

  method SortedTable(hashes: map<string, (string, string)>) returns (table: seq<BlockHash>)
    ensures IsBlockTable(hashes, table)
  {
    var keys := SortedIds(hashes.Keys);
    table := [];
    for i := 0 to |keys|
      invariant BlockKeys(table) == keys[..i]
      invariant forall k :: 0 <= k < |table| ==> table[k].key in hashes && table[k].hashes == hashes[table[k].key]
    {
      assert keys[i] in keys;
      assert keys[..i + 1] == keys[..i] + [keys[i]];
      table := table + [BlockHash(keys[i], hashes[keys[i]])];
    }
    assert keys[..|keys|] == keys;
  }

  // ---- Where a document came from ----

  // As its group files it.
  function Filed(id: string, project: Project): Provenance {
    Normalized(id, project.given)
  }

  // The comparison's provenance, and without one the baseline's.
  function ProvenanceOf(id: string, before: Option<Project>, after: Option<Project>): Provenance {
    if after.Some? then Filed(id, after.value)
    else if before.Some? then Filed(id, before.value)
    else Normalized(id, None)
  }

  function RetainedOf(g: Hashing, id: string, before: Option<Project>, after: Option<Project>): Option<Provenance> {
    if before.Some? && after.Some? &&
       ProvenanceText(g.nfc, Filed(id, before.value)) != ProvenanceText(g.nfc, Filed(id, after.value))
    then Some(Filed(id, before.value)) else None
  }

  // Both are normalised a second time on their way into the result.
  method ResultProvenance(g: Hashing, id: string, before: Option<Project>, after: Option<Project>)
    returns (provenance: Provenance, retained: Option<Provenance>)
    ensures provenance == ProvenanceOf(id, before, after) && retained == RetainedOf(g, id, before, after)
  {
    retained := None;
    if after.Some? {
      var stored := Filed(id, after.value);
      provenance := Normalized(id, Some(AsGiven(stored)));
      NormalizedTwice(id, after.value.given);
    } else if before.Some? {
      provenance := Normalized(id, Some(AsGiven(Filed(id, before.value))));
      NormalizedTwice(id, before.value.given);
    } else {
      provenance := Normalized(id, None);
    }
    if before.Some? && after.Some? &&
       ProvenanceText(g.nfc, Filed(id, before.value)) != ProvenanceText(g.nfc, Filed(id, after.value)) {
      retained := Some(Normalized(id, Some(AsGiven(Filed(id, before.value)))));
      NormalizedTwice(id, before.value.given);
    }
  }

  ghost predicate IsDocDiff(g: Hashing, id: string, before: Option<Project>, after: Option<Project>, r: DocResult) {
    r.documentId == id &&
    (forall kind :: HasZone(g, before, after, r, kind)) &&
    IsBlockTable(AllHashes(r), r.blockHashes) &&
    r.provenance == ProvenanceOf(id, before, after) && r.baselineProvenance == RetainedOf(g, id, before, after) &&
    r.state == if before.None? then AddedDoc else if after.None? then RemovedDoc
               else if DocChanged(r) == 0 then UnchangedDoc else ModifiedDoc
  }

  // The lists of a document; of one that is not there, empty ones.
  function ListsOf(project: Option<Project>): Project {
    project.GetOr(Project([], [], [], None))
  }

  // The three zones are the diffs of the two documents' own nodes, edges and evidence.
  ghost predicate DiffsItsLists(g: Hashing, id: string, p: Project, q: Project, r: DocResult) {
    IsZoneDiff(Setting(g.nfc, g.h, id, Node), IndexOf(TagEntities(p.nodes)), IndexOf(TagEntities(q.nodes)), r.nodes) &&
    IsZoneDiff(Setting(g.nfc, g.h, id, Edge), IndexOf(TagEntities(p.edges)), IndexOf(TagEntities(q.edges)), r.edges) &&
    IsZoneDiff(Setting(g.nfc, g.h, id, Evidence), IndexOf(TagEntities(p.evidence)), IndexOf(TagEntities(q.evidence)),
               r.evidence)
  }

  /** Nodes are diffed against nodes, edges against edges and evidence against evidence, a missing side being empty. */
  lemma ZonesOfTheLists(g: Hashing, id: string, before: Option<Project>, after: Option<Project>, r: DocResult)
    requires IsDocDiff(g, id, before, after, r)
    ensures DiffsItsLists(g, id, ListsOf(before), ListsOf(after), r)
  {
    ListOfKind(before);
    ListOfKind(after);
    assert HasZone(g, before, after, r, Node) && HasZone(g, before, after, r, Edge);
    assert HasZone(g, before, after, r, Evidence);
  }

  // Both lists have good, distinct ids, and no hash differs where the fields cannot be compared.
  ghost predicate ListsComparable(s: Setting, a: seq<Entity>, b: seq<Entity>) {
    CanIndex(TagEntities(a)) && CanIndex(TagEntities(b)) &&
    Comparable(s, IndexOf(TagEntities(a)), IndexOf(TagEntities(b)))
  }

  lemma ListOfKind(project: Option<Project>)
    ensures EntityList(project, Node) == ListsOf(project).nodes
    ensures EntityList(project, Edge) == ListsOf(project).edges
    ensures EntityList(project, Evidence) == ListsOf(project).evidence
  {
  }

  lemma ComparableOfKind(g: Hashing, id: string, before: Option<Project>, after: Option<Project>)
    ensures ZoneComparable(g, id, before, after, Node) <==>
            ListsComparable(Setting(g.nfc, g.h, id, Node), ListsOf(before).nodes, ListsOf(after).nodes)
    ensures ZoneComparable(g, id, before, after, Edge) <==>
            ListsComparable(Setting(g.nfc, g.h, id, Edge), ListsOf(before).edges, ListsOf(after).edges)
    ensures ZoneComparable(g, id, before, after, Evidence) <==>
            ListsComparable(Setting(g.nfc, g.h, id, Evidence), ListsOf(before).evidence, ListsOf(after).evidence)
  {
    ListOfKind(before);
    ListOfKind(after);
  }

  /** Whether two documents can be compared is decided list by list, each against its own. */
  lemma ComparableByLists(g: Hashing, id: string, before: Option<Project>, after: Option<Project>)
    ensures DocComparable(g, id, before, after) <==>
            var p, q := ListsOf(before), ListsOf(after);
            ListsComparable(Setting(g.nfc, g.h, id, Node), p.nodes, q.nodes) &&
            ListsComparable(Setting(g.nfc, g.h, id, Edge), p.edges, q.edges) &&
            ListsComparable(Setting(g.nfc, g.h, id, Evidence), p.evidence, q.evidence)
  {
    ComparableOfKind(g, id, before, after);
    if ZoneComparable(g, id, before, after, Node) && ZoneComparable(g, id, before, after, Edge) &&
       ZoneComparable(g, id, before, after, Evidence)
    {
      forall kind ensures ZoneComparable(g, id, before, after, kind) {
        match kind case Node => case Edge => case Evidence =>
      }
    }
  }

  // The three zone diffs; state, table and provenance are still to come.
  method DiffZones(g: Hashing, id: string, before: Option<Project>, after: Option<Project>, cache: map<string, string>)
    returns (r: Result<DocResult, DiffError>, next: map<string, string>)
    requires Sound(g.h, cache) && WellFormedDocument(before) && WellFormedDocument(after)
    ensures Sound(g.h, next)
    ensures r.Ok? <==> DocComparable(g, id, before, after)
    ensures r.Ok? ==> r.value.documentId == id && forall kind :: HasZone(g, before, after, r.value, kind)
  {
    next := cache;
    var nodes, edges, evidence;
    nodes, next := DiffKind(g, id, before, after, Node, next);
    if nodes.Err? { return Err(nodes.error), next; }
    edges, next := DiffKind(g, id, before, after, Edge, next);
    if edges.Err? { return Err(edges.error), next; }
    evidence, next := DiffKind(g, id, before, after, Evidence, next);
    if evidence.Err? { return Err(evidence.error), next; }
    r := Ok(DocResult(id, UnchangedDoc, Normalized(id, None), None, nodes.value, edges.value, evidence.value, []));
    forall kind ensures HasZone(g, before, after, r.value, kind) && ZoneComparable(g, id, before, after, kind) {
      match kind case Node => case Edge => case Evidence =>
    }
  }

  method DiffDocument(g: Hashing, id: string, before: Option<Project>, after: Option<Project>,
                      cache: map<string, string>)
    returns (r: Result<DocResult, DiffError>, next: map<string, string>)
    requires Sound(g.h, cache) && WellFormedDocument(before) && WellFormedDocument(after)
    ensures Sound(g.h, next)
    ensures r.Ok? <==> DocComparable(g, id, before, after)
    ensures r.Ok? ==> IsDocDiff(g, id, before, after, r.value)
    ensures r.Ok? ==> DiffsItsLists(g, id, ListsOf(before), ListsOf(after), r.value)
  {
    var zones;
    zones, next := DiffZones(g, id, before, after, cache);
    if zones.Err? { return Err(zones.error), next; }
    var table := SortedTable(AllHashes(zones.value));
    var state := if before.None? then AddedDoc else if after.None? then RemovedDoc
                 else if DocChanged(zones.value) == 0 then UnchangedDoc else ModifiedDoc;
    var provenance, retained := ResultProvenance(g, id, before, after);
    r := Ok(zones.value.(state := state, blockHashes := table, provenance := provenance,
                         baselineProvenance := retained));
    Completed(g, id, before, after, zones.value, r.value);
    ZonesOfTheLists(g, id, before, after, r.value);
  }

  lemma Completed(g: Hashing, id: string, before: Option<Project>, after: Option<Project>, zones: DocResult,
                  r: DocResult)
    requires zones.documentId == id && forall kind :: HasZone(g, before, after, zones, kind)
    requires r == zones.(state := r.state, blockHashes := r.blockHashes, provenance := r.provenance,
                         baselineProvenance := r.baselineProvenance)
    ensures AllHashes(r) == AllHashes(zones) && DocChanged(r) == DocChanged(zones)
    ensures r.documentId == id && forall kind :: HasZone(g, before, after, r, kind)
  {
    forall kind ensures HasZone(g, before, after, r, kind) {
      assert ZoneOf(r, kind) == ZoneOf(zones, kind);
      assert HasZone(g, before, after, zones, kind);
    }
  }

  method DiffKind(g: Hashing, id: string, before: Option<Project>, after: Option<Project>, kind: Kind,
                  cache: map<string, string>)
    returns (r: Result<Zone, DiffError>, next: map<string, string>)
    requires Sound(g.h, cache) && WellFormedDocument(before) && WellFormedDocument(after)
    ensures Sound(g.h, next)
    ensures r.Ok? <==> ZoneComparable(g, id, before, after, kind)
    ensures r.Ok? ==> IsZoneDiff(At(g, id, kind), EntitiesOf(before, kind), EntitiesOf(after, kind), r.value)
  {
    r, next := DiffEntityZone(At(g, id, kind), EntityList(before, kind), EntityList(after, kind), cache);
  }

  // ---- The batch ----

  function Names(results: seq<DocResult>): (r: seq<string>)
    ensures |r| == |results| && forall i :: 0 <= i < |r| ==> r[i] == results[i].documentId
  {
    seq(|results|, i requires 0 <= i < |results| => results[i].documentId)
  }

  // One diff for every distinct document id, in strict byte order.
  ghost predicate IsBatch(g: Hashing, a: Documents, b: Documents, results: seq<DocResult>) {
    Lists(Names(results), a.Keys + b.Keys) &&
    forall i :: 0 <= i < |results| ==>
      IsDocDiff(g, results[i].documentId, Find(a, results[i].documentId), Find(b, results[i].documentId), results[i])
  }

  ghost predicate BatchComparable(g: Hashing, a: Documents, b: Documents) {
    forall id :: id in a || id in b ==> DocComparable(g, id, Find(a, id), Find(b, id))
  }

  function StateCount(results: seq<DocResult>, state: DocState): nat {
    if results == [] then 0
    else (if results[|results| - 1].state == state then 1 else 0) + StateCount(results[..|results| - 1], state)
  }

  function Added(results: seq<DocResult>, kind: Kind): nat {
    if results == [] then 0
    else |ZoneOf(results[|results| - 1], kind).added| + Added(results[..|results| - 1], kind)
  }

  function Removed(results: seq<DocResult>, kind: Kind): nat {
    if results == [] then 0
    else |ZoneOf(results[|results| - 1], kind).removed| + Removed(results[..|results| - 1], kind)
  }

  function ModifiedCount(results: seq<DocResult>, kind: Kind): nat {
    if results == [] then 0
    else |ZoneOf(results[|results| - 1], kind).modified| + ModifiedCount(results[..|results| - 1], kind)
  }

  function Aggregate(results: seq<DocResult>, kind: Kind): Count {
    var added, removed, modified := Added(results, kind), Removed(results, kind), ModifiedCount(results, kind);
    Count(added, removed, modified, added + removed + modified)
  }

  function SummaryOf(results: seq<DocResult>): Summary {
    var added, removed := StateCount(results, AddedDoc), StateCount(results, RemovedDoc);
    var modified := StateCount(results, ModifiedDoc);
    var nodes, edges, evidence := Aggregate(results, Node), Aggregate(results, Edge), Aggregate(results, Evidence);
    Summary(Count(added, removed, modified, added + removed + modified), nodes, edges, evidence,
            nodes.changed + edges.changed + evidence.changed)
  }

  // The first n documents are diffed.
  ghost predicate DiffedUpTo(g: Hashing, ids: seq<string>, n: nat, a: Documents, b: Documents, results: seq<DocResult>)
    requires n <= |ids|
  {
    |results| == n &&
    forall i :: 0 <= i < n ==> IsDocDiff(g, ids[i], Find(a, ids[i]), Find(b, ids[i]), results[i]) &&
                               DocComparable(g, ids[i], Find(a, ids[i]), Find(b, ids[i]))
  }

  ghost predicate WellFormedDocuments(docs: Documents) {
    forall id :: WellFormedDocument(Find(docs, id))
  }

  lemma OneMoreDiffed(g: Hashing, ids: seq<string>, n: nat, a: Documents, b: Documents, results: seq<DocResult>,
                      r: DocResult)
    requires n < |ids| && DiffedUpTo(g, ids, n, a, b, results)
    requires IsDocDiff(g, ids[n], Find(a, ids[n]), Find(b, ids[n]), r)
    requires DocComparable(g, ids[n], Find(a, ids[n]), Find(b, ids[n]))
    ensures DiffedUpTo(g, ids, n + 1, a, b, results + [r])
  {
  }

  method DiffChunk(g: Hashing, ids: seq<string>, from: nat, to: nat, a: Documents, b: Documents,
                   results: seq<DocResult>, cache: map<string, string>)
    returns (r: Result<seq<DocResult>, BatchError>, next: map<string, string>)
    requires from <= to <= |ids| && Sound(g.h, cache) && DiffedUpTo(g, ids, from, a, b, results)
    requires WellFormedDocuments(a) && WellFormedDocuments(b)
    ensures Sound(g.h, next)
    ensures r.Ok? ==> DiffedUpTo(g, ids, to, a, b, r.value)
    ensures r.Err? ==> exists i :: from <= i < to && !DocComparable(g, ids[i], Find(a, ids[i]), Find(b, ids[i]))
  {
    next := cache;
    var more := results;
    for i := from to to
      invariant Sound(g.h, next) && DiffedUpTo(g, ids, i, a, b, more)
    {
      var one;
      one, next := DiffDocument(g, ids[i], Find(a, ids[i]), Find(b, ids[i]), next);
      if one.Err? { return Err(BadDocument(ids[i], one.error)), next; }
      OneMoreDiffed(g, ids, i, a, b, more, one.value);
      more := more + [one.value];
    }
    return Ok(more), next;
  }

  method DiffAll(g: Hashing, ids: seq<string>, a: Documents, b: Documents)
    returns (r: Result<seq<DocResult>, BatchError>)
    requires WellFormedDocuments(a) && WellFormedDocuments(b) && Lists(ids, a.Keys + b.Keys)
    ensures r.Ok? <==> BatchComparable(g, a, b)
    ensures r.Ok? ==> IsBatch(g, a, b, r.value)
  {
    var cache: map<string, string>, results: seq<DocResult>, offset := map[], [], 0;
    while offset < |ids|
      invariant 0 <= offset <= |ids| && Sound(g.h, cache) && DiffedUpTo(g, ids, offset, a, b, results)
    {
      var end := if offset + DOCUMENT_CHUNK <= |ids| then offset + DOCUMENT_CHUNK else |ids|;
      var chunk;
      chunk, cache := DiffChunk(g, ids, offset, end, a, b, results, cache);
      if chunk.Err? {
        NotComparable(g, ids, a, b);
        return Err(chunk.error);
      }
      results, offset := chunk.value, end;
    }
    AllDiffed(g, ids, a, b, results);
    return Ok(results);
  }

  lemma NotComparable(g: Hashing, ids: seq<string>, a: Documents, b: Documents)
    requires Lists(ids, a.Keys + b.Keys)
    requires exists i :: 0 <= i < |ids| && !DocComparable(g, ids[i], Find(a, ids[i]), Find(b, ids[i]))
    ensures !BatchComparable(g, a, b)
  {
    var i :| 0 <= i < |ids| && !DocComparable(g, ids[i], Find(a, ids[i]), Find(b, ids[i]));
    assert ids[i] in ids;
  }

  lemma AllDiffed(g: Hashing, ids: seq<string>, a: Documents, b: Documents, results: seq<DocResult>)
    requires Lists(ids, a.Keys + b.Keys) && DiffedUpTo(g, ids, |ids|, a, b, results)
    ensures IsBatch(g, a, b, results) && BatchComparable(g, a, b)
  {
    assert Names(results) == ids;
    forall id | id in a || id in b ensures DocComparable(g, id, Find(a, id), Find(b, id)) {
      assert id in ids;
      var i :| 0 <= i < |ids| && ids[i] == id;
    }
  }

  // Both groups have good and distinct document ids, and every document can be compared.
  ghost predicate BatchPossible(g: Hashing, baseline: seq<DocInput>, comparison: seq<DocInput>) {
    CanIndex(TagDocuments(baseline)) && CanIndex(TagDocuments(comparison)) &&
    BatchComparable(g, IndexOf(TagDocuments(baseline)), IndexOf(TagDocuments(comparison)))
  }

  // A group's own name and label if they are texts that trimming leaves something of, and its ids in byte order.
  ghost predicate Describes(group: GroupInput, fallbackId: string, fallbackLabel: string, d: Descriptor) {
    d.groupId == Named(group.groupId, fallbackId) && d.groupLabel == Named(group.groupLabel, fallbackLabel) &&
    Lists(d.documentIds, IndexOf(TagDocuments(group.documents)).Keys)
  }

  function Named(given: Option<string>, fallback: string): string {
    if given.Some? then NonEmpty(given.value).GetOr(fallback) else fallback
  }

  /** A group goes by the name and label given for it, trimmed; by the fallback if none is given or it is blank. */
  lemma NamedIs(given: Option<string>, fallback: string)
    ensures given.Some? && !AllSpace(given.value) ==> TrimsTo(given.value, Named(given, fallback))
    ensures given.None? || AllSpace(given.value) ==> Named(given, fallback) == fallback
  {
    if given.Some? { TrimmedIs(given.value); }
  }

  // What the batch answers: it fails exactly when it must, and else has all diffs and their summary.
  ghost predicate IsBatchAnswer(g: Hashing, baseline: GroupInput, comparison: GroupInput,
                                r: Result<Batch, BatchError>)
  {
    (r.Ok? <==> BatchPossible(g, baseline.documents, comparison.documents)) &&
    (r.Ok? ==> Describes(baseline, "baseline", "Baseline", r.value.baseline) &&
               Describes(comparison, "comparison", "Comparison", r.value.comparison) &&
               IsBatch(g, IndexOf(TagDocuments(baseline.documents)), IndexOf(TagDocuments(comparison.documents)),
                       r.value.documents) &&
               r.value.summary == SummaryOf(r.value.documents))
  }

  /** The whole batch: it fails exactly on a bad document id or a document that cannot be compared. */
  method ComputeBatch(g: Hashing, baseline: GroupInput, comparison: GroupInput) returns (r: Result<Batch, BatchError>)
    requires WellFormedGroup(baseline.documents) && WellFormedGroup(comparison.documents)
    ensures IsBatchAnswer(g, baseline, comparison, r)
    ensures r.Ok? ==> BatchDiffsItsLists(g, IndexOf(TagDocuments(baseline.documents)),
                                         IndexOf(TagDocuments(comparison.documents)), r.value.documents)
  {
    var first := Index(TagDocuments(baseline.documents));
    if first.Err? { return Err(BadGroup(first.error)); }
    var firstIds := SortedIds(first.value.Keys);
    var second := Index(TagDocuments(comparison.documents));
    if second.Err? { return Err(BadGroup(second.error)); }
    var secondIds := SortedIds(second.value.Keys);
    GroupIsWellFormed(baseline.documents);
    GroupIsWellFormed(comparison.documents);
    var ids := SortedIds(first.value.Keys + second.value.Keys);
    var documents := DiffAll(g, ids, first.value, second.value);
    if documents.Err? { return Err(documents.error); }
    ListsOfTheBatch(g, first.value, second.value, documents.value);
    return Ok(Batch(Descriptor(Named(baseline.groupId, "baseline"), Named(baseline.groupLabel, "Baseline"), firstIds),
                    Descriptor(Named(comparison.groupId, "comparison"), Named(comparison.groupLabel, "Comparison"),
                               secondIds),
                    documents.value, SummaryOf(documents.value)));
  }

  ghost predicate BatchDiffsItsLists(g: Hashing, a: Documents, b: Documents, results: seq<DocResult>) {
    forall i :: 0 <= i < |results| ==>
      var id := results[i].documentId; DiffsItsLists(g, id, ListsOf(Find(a, id)), ListsOf(Find(b, id)), results[i])
  }

  lemma ListsOfTheBatch(g: Hashing, a: Documents, b: Documents, results: seq<DocResult>)
    requires IsBatch(g, a, b, results)
    ensures BatchDiffsItsLists(g, a, b, results)
  {
    forall i | 0 <= i < |results|
      ensures var id := results[i].documentId;
              DiffsItsLists(g, id, ListsOf(Find(a, id)), ListsOf(Find(b, id)), results[i])
    {
      ZonesOfTheLists(g, results[i].documentId, Find(a, results[i].documentId), Find(b, results[i].documentId),
                      results[i]);
    }
  }

  lemma GroupIsWellFormed(docs: seq<DocInput>)
    requires WellFormedGroup(docs) && CanIndex(TagDocuments(docs))
    ensures WellFormedDocuments(IndexOf(TagDocuments(docs)))
  {
    var m := IndexOf(TagDocuments(docs));
    forall id | id in m ensures WellFormedDocument(Some(m[id])) {
      IndexedByIdIff(TagDocuments(docs), id, m[id]);
      var i :| 0 <= i < |docs| && TagDocuments(docs)[i] == Tagged(Some(id), m[id]);
      assert docs[i].project == m[id];
    }
  }

  // ---- What the summary says ----

  function TotalChanged(results: seq<DocResult>): nat {
    if results == [] then 0 else DocChanged(results[|results| - 1]) + TotalChanged(results[..|results| - 1])
  }

  /** Summing kind by kind and summing document by document give the same total. */
  lemma {:induction false} TotalIsTheSumOverDocuments(results: seq<DocResult>)
    ensures SummaryOf(results).totalChanges == TotalChanged(results)
  {
    if results != [] {
      TotalIsTheSumOverDocuments(results[..|results| - 1]);
    }
  }

  // How many entity ids document id has in its list on side b that it does not have on side a.
  function OnlyInOne(a: Documents, b: Documents, id: string, list: Project -> seq<Entity>): nat {
    var x, y := list(ListsOf(Find(a, id))), list(ListsOf(Find(b, id)));
    |IndexOf(TagEntities(y)).Keys - IndexOf(TagEntities(x)).Keys|
  }

  function OnlyIn(a: Documents, b: Documents, ids: seq<string>, list: Project -> seq<Entity>): nat {
    if ids == [] then 0 else OnlyInOne(a, b, ids[|ids| - 1], list) + OnlyIn(a, b, ids[..|ids| - 1], list)
  }

  // How many ids both sides of document id have with hashes that differ.
  ghost function DifferingInOne(g: Hashing, kind: Kind, a: Documents, b: Documents, id: string,
                                list: Project -> seq<Entity>): nat
  {
    var x, y := list(ListsOf(Find(a, id))), list(ListsOf(Find(b, id)));
    |ModifiedIds(Setting(g.nfc, g.h, id, kind), IndexOf(TagEntities(x)), IndexOf(TagEntities(y)))|
  }

  ghost function Differing(g: Hashing, kind: Kind, a: Documents, b: Documents, ids: seq<string>,
                           list: Project -> seq<Entity>): nat
  {
    if ids == [] then 0
    else DifferingInOne(g, kind, a, b, ids[|ids| - 1], list) + Differing(g, kind, a, b, ids[..|ids| - 1], list)
  }

  const NodesOf: Project -> seq<Entity> := (p: Project) => p.nodes
  const EdgesOf: Project -> seq<Entity> := (p: Project) => p.edges
  const EvidenceOf: Project -> seq<Entity> := (p: Project) => p.evidence

  // The zone of this kind is the diff of the two lists picked.
  ghost predicate DiffsList(g: Hashing, a: Documents, b: Documents, r: DocResult, kind: Kind,
                            list: Project -> seq<Entity>)
  {
    IsZoneDiff(Setting(g.nfc, g.h, r.documentId, kind), IndexOf(TagEntities(list(ListsOf(Find(a, r.documentId))))),
               IndexOf(TagEntities(list(ListsOf(Find(b, r.documentId))))), ZoneOf(r, kind))
  }

  lemma CountsOfZone(g: Hashing, a: Documents, b: Documents, r: DocResult, kind: Kind, list: Project -> seq<Entity>)
    requires DiffsList(g, a, b, r, kind, list)
    ensures var id, z := r.documentId, ZoneOf(r, kind);
            |z.added| == OnlyInOne(a, b, id, list) && |z.removed| == OnlyInOne(b, a, id, list) &&
            |z.modified| == DifferingInOne(g, kind, a, b, id, list)
  {
    var id := r.documentId;
    CountsOfLists(Setting(g.nfc, g.h, id, kind), IndexOf(TagEntities(list(ListsOf(Find(a, id))))),
                  IndexOf(TagEntities(list(ListsOf(Find(b, id))))), ZoneOf(r, kind));
  }

  // One id more.
  lemma OneIdMore(g: Hashing, a: Documents, b: Documents, ids: seq<string>, id: string, kind: Kind,
                  list: Project -> seq<Entity>)
    ensures OnlyIn(a, b, ids + [id], list) == OnlyInOne(a, b, id, list) + OnlyIn(a, b, ids, list)
    ensures Differing(g, kind, a, b, ids + [id], list) ==
            DifferingInOne(g, kind, a, b, id, list) + Differing(g, kind, a, b, ids, list)
  {
    assert (ids + [id])[..|ids|] == ids;
  }

  ghost predicate KindAgrees(g: Hashing, a: Documents, b: Documents, results: seq<DocResult>, kind: Kind,
                             list: Project -> seq<Entity>)
  {
    Added(results, kind) == OnlyIn(a, b, Names(results), list) &&
    Removed(results, kind) == OnlyIn(b, a, Names(results), list) &&
    ModifiedCount(results, kind) == Differing(g, kind, a, b, Names(results), list)
  }

  lemma OneResultMore(results: seq<DocResult>, r: DocResult, kind: Kind)
    ensures Added(results + [r], kind) == |ZoneOf(r, kind).added| + Added(results, kind)
    ensures Removed(results + [r], kind) == |ZoneOf(r, kind).removed| + Removed(results, kind)
    ensures ModifiedCount(results + [r], kind) == |ZoneOf(r, kind).modified| + ModifiedCount(results, kind)
    ensures Names(results + [r]) == Names(results) + [r.documentId]
  {
    assert (results + [r])[..|results|] == results;
  }

  lemma StillAgrees(g: Hashing, a: Documents, b: Documents, results: seq<DocResult>, r: DocResult, kind: Kind,
                    list: Project -> seq<Entity>)
    requires KindAgrees(g, a, b, results, kind, list) && DiffsList(g, a, b, r, kind, list)
    ensures KindAgrees(g, a, b, results + [r], kind, list)
  {
    OneResultMore(results, r, kind);
    CountsOfZone(g, a, b, r, kind, list);
    OneIdMore(g, a, b, Names(results), r.documentId, kind, list);
    OneIdMore(g, b, a, Names(results), r.documentId, kind, list);
  }

  lemma {:induction false} KindCounts(g: Hashing, a: Documents, b: Documents, results: seq<DocResult>, kind: Kind,
                                      list: Project -> seq<Entity>)
    requires forall i :: 0 <= i < |results| ==> DiffsList(g, a, b, results[i], kind, list)
    ensures KindAgrees(g, a, b, results, kind, list)
  {
    if results == [] {
      assert Names(results) == [];
    } else {
      var n := |results| - 1;
      KindCounts(g, a, b, results[..n], kind, list);
      StillAgrees(g, a, b, results[..n], results[n], kind, list);
      assert results[..n] + [results[n]] == results;
    }
  }

  // The counts of one kind of entity, over all documents.
  ghost predicate CountsIds(g: Hashing, kind: Kind, a: Documents, b: Documents, ids: seq<string>,
                            list: Project -> seq<Entity>, c: Count)
  {
    c.added == OnlyIn(a, b, ids, list) && c.removed == OnlyIn(b, a, ids, list) &&
    c.modified == Differing(g, kind, a, b, ids, list) && c.changed == c.added + c.removed + c.modified
  }

  lemma NodeCounts(g: Hashing, a: Documents, b: Documents, results: seq<DocResult>)
    requires BatchDiffsItsLists(g, a, b, results)
    ensures CountsIds(g, Node, a, b, Names(results), NodesOf, Aggregate(results, Node))
  {
    forall i | 0 <= i < |results| ensures DiffsList(g, a, b, results[i], Node, NodesOf) {
      var id := results[i].documentId;
      assert DiffsItsLists(g, id, ListsOf(Find(a, id)), ListsOf(Find(b, id)), results[i]);
    }
    KindCounts(g, a, b, results, Node, NodesOf);
  }

  lemma EdgeCounts(g: Hashing, a: Documents, b: Documents, results: seq<DocResult>)
    requires BatchDiffsItsLists(g, a, b, results)
    ensures CountsIds(g, Edge, a, b, Names(results), EdgesOf, Aggregate(results, Edge))
  {
    forall i | 0 <= i < |results| ensures DiffsList(g, a, b, results[i], Edge, EdgesOf) {
      var id := results[i].documentId;
      assert DiffsItsLists(g, id, ListsOf(Find(a, id)), ListsOf(Find(b, id)), results[i]);
    }
    KindCounts(g, a, b, results, Edge, EdgesOf);
  }

  lemma EvidenceCounts(g: Hashing, a: Documents, b: Documents, results: seq<DocResult>)
    requires BatchDiffsItsLists(g, a, b, results)
    ensures CountsIds(g, Evidence, a, b, Names(results), EvidenceOf, Aggregate(results, Evidence))
  {
    forall i | 0 <= i < |results| ensures DiffsList(g, a, b, results[i], Evidence, EvidenceOf) {
      var id := results[i].documentId;
      assert DiffsItsLists(g, id, ListsOf(Find(a, id)), ListsOf(Find(b, id)), results[i]);
    }
    KindCounts(g, a, b, results, Evidence, EvidenceOf);
  }

  /**
    The summary counts, for nodes, edges and evidence, the ids only after, only before, and on both sides but
    differing.
  */
  lemma SummaryCountsIds(g: Hashing, a: Documents, b: Documents, results: seq<DocResult>)
    requires IsBatch(g, a, b, results)
    ensures var sum, ids := SummaryOf(results), Names(results);
            CountsIds(g, Node, a, b, ids, NodesOf, sum.nodes) && CountsIds(g, Edge, a, b, ids, EdgesOf, sum.edges) &&
            CountsIds(g, Evidence, a, b, ids, EvidenceOf, sum.evidence) &&
            sum.totalChanges == sum.nodes.changed + sum.edges.changed + sum.evidence.changed
  {
    ListsOfTheBatch(g, a, b, results);
    NodeCounts(g, a, b, results);
    EdgeCounts(g, a, b, results);
    EvidenceCounts(g, a, b, results);
    KindsOfTheSummary(results);
  }

  lemma KindsOfTheSummary(results: seq<DocResult>)
    ensures var sum := SummaryOf(results);
            sum.nodes == Aggregate(results, Node) && sum.edges == Aggregate(results, Edge) &&
            sum.evidence == Aggregate(results, Evidence) &&
            sum.totalChanges == sum.nodes.changed + sum.edges.changed + sum.evidence.changed
  {
  }

  lemma {:induction false} StatesAddUp(results: seq<DocResult>)
    ensures StateCount(results, AddedDoc) + StateCount(results, RemovedDoc) +
            StateCount(results, ModifiedDoc) + StateCount(results, UnchangedDoc) == |results|
  {
    if results != [] { StatesAddUp(results[..|results| - 1]); }
  }

  ghost function NamesIn(results: seq<DocResult>, state: DocState): set<string> {
    set i | 0 <= i < |results| && results[i].state == state :: results[i].documentId
  }

  lemma {:induction false} StateCountIsSetSize(results: seq<DocResult>, state: DocState)
    requires StrictlySorted(Names(results))
    ensures StateCount(results, state) == |NamesIn(results, state)|
  {
    if results == [] {
      assert NamesIn(results, state) == {};
    } else {
      assert Names(results[..|results| - 1]) == Names(results)[..|results| - 1];
      StateCountIsSetSize(results[..|results| - 1], state);
      LastNameIsNew(results, state);
      OneMoreName(results, state);
    }
  }

  lemma LastNameIsNew(results: seq<DocResult>, state: DocState)
    requires results != [] && StrictlySorted(Names(results))
    ensures results[|results| - 1].documentId !in NamesIn(results[..|results| - 1], state)
  {
    var n := |results| - 1;
    SortedDistinct(Names(results));
    forall i | 0 <= i < n ensures results[..n][i].documentId != results[n].documentId {
      assert Names(results)[i] != Names(results)[n];
    }
  }

  lemma OneMoreName(results: seq<DocResult>, state: DocState)
    requires results != []
    ensures var last, rest := results[|results| - 1], results[..|results| - 1];
            NamesIn(results, state) == NamesIn(rest, state) + if last.state == state then {last.documentId} else {}
  {
    var n := |results| - 1;
    var rest := results[..n];
    forall x | x in NamesIn(results, state)
      ensures x in NamesIn(rest, state) + if results[n].state == state then {results[n].documentId} else {}
    {
      var i :| 0 <= i < |results| && results[i].state == state && results[i].documentId == x;
      if i < n { assert rest[i] == results[i]; }
    }
    forall x | x in NamesIn(rest, state) ensures x in NamesIn(results, state) {
      var i :| 0 <= i < n && rest[i].state == state && rest[i].documentId == x;
      assert results[i] == rest[i];
    }
  }

  /** Added, removed, modified and unchanged documents are as many as there are distinct document ids. */
  lemma DocumentsArePartitioned(g: Hashing, a: Documents, b: Documents, results: seq<DocResult>)
    requires IsBatch(g, a, b, results)
    ensures SummaryOf(results).documents.changed + StateCount(results, UnchangedDoc) == |a.Keys + b.Keys|
    ensures SummaryOf(results).documents.added == |b.Keys - a.Keys|
    ensures SummaryOf(results).documents.removed == |a.Keys - b.Keys|
    ensures SummaryOf(results).documents.modified == |NamesIn(results, ModifiedDoc)|
  {
    StateCountIsSetSize(results, ModifiedDoc);
    StatesAddUp(results);
    ListLength(Names(results), a.Keys + b.Keys);
    StateCountIsSetSize(results, AddedDoc);
    StateCountIsSetSize(results, RemovedDoc);
    assert NamesIn(results, AddedDoc) == b.Keys - a.Keys by { NamesInAre(g, a, b, results); }
    assert NamesIn(results, RemovedDoc) == a.Keys - b.Keys by { NamesInAre(g, a, b, results); }
  }

  lemma NamesInAre(g: Hashing, a: Documents, b: Documents, results: seq<DocResult>)
    requires IsBatch(g, a, b, results)
    ensures NamesIn(results, AddedDoc) == b.Keys - a.Keys
    ensures NamesIn(results, RemovedDoc) == a.Keys - b.Keys
  {
    forall i | 0 <= i < |results|
      ensures results[i].documentId in a.Keys + b.Keys
      ensures results[i].state == AddedDoc <==> results[i].documentId in b.Keys - a.Keys
      ensures results[i].state == RemovedDoc <==> results[i].documentId in a.Keys - b.Keys
    {
      var id := results[i].documentId;
      assert Names(results)[i] in Names(results);
      assert IsDocDiff(g, id, Find(a, id), Find(b, id), results[i]);
    }
    forall id | id in a.Keys + b.Keys ensures exists i :: 0 <= i < |results| && results[i].documentId == id {
      assert id in Names(results);
      var i :| 0 <= i < |results| && Names(results)[i] == id;
    }
  }

  // ---- What the states say ----

  ghost predicate SameEverywhere(g: Hashing, before: Option<Project>, after: Option<Project>, kind: Kind) {
    var a, b := EntitiesOf(before, kind), EntitiesOf(after, kind);
    a.Keys == b.Keys && forall id :: id in a && id in b ==> SameClaim(g.nfc, kind, a[id], b[id])
  }

  ghost predicate DocInputs(g: Hashing, id: string, before: Option<Project>, after: Option<Project>) {
    forall kind :: var a, b := EntitiesOf(before, kind), EntitiesOf(after, kind);
      Inputs(At(g, id, kind), a, b) && NoCollisions(At(g, id, kind), a, b)
  }

  lemma EmptyZoneIff(s: Setting, a: Entities, b: Entities, z: Zone)
    requires IsZoneDiff(s, a, b, z) && Inputs(s, a, b) && NoCollisions(s, a, b)
    ensures ZoneSize(z) == 0 <==>
            a.Keys == b.Keys && forall id :: id in a && id in b ==> SameClaim(s.nfc, s.kind, a[id], b[id])
  {
    CountsOfLists(s, a, b, z);
    forall id ensures id in ModifiedIds(s, a, b) <==> id in a && id in b && !SameClaim(s.nfc, s.kind, a[id], b[id]) {
      ModifiedIffClaimsDiffer(s, a, b, id);
    }
    if ZoneSize(z) == 0 {
      assert b.Keys - a.Keys == {} && a.Keys - b.Keys == {} && ModifiedIds(s, a, b) == {};
      assert a.Keys == b.Keys;
    }
    if a.Keys == b.Keys && forall id :: id in a && id in b ==> SameClaim(s.nfc, s.kind, a[id], b[id]) {
      assert b.Keys - a.Keys == {} && a.Keys - b.Keys == {} && ModifiedIds(s, a, b) == {};
    }
  }

  lemma StateOf(g: Hashing, id: string, before: Option<Project>, after: Option<Project>, r: DocResult)
    requires IsDocDiff(g, id, before, after, r)
    ensures r.state == UnchangedDoc <==> before.Some? && after.Some? && DocChanged(r) == 0
    ensures r.documentId == id && forall kind :: HasZone(g, before, after, r, kind)
  {
  }

  lemma NothingChangedIff(g: Hashing, id: string, before: Option<Project>, after: Option<Project>, r: DocResult)
    requires r.documentId == id && (forall kind :: HasZone(g, before, after, r, kind))
    requires DocInputs(g, id, before, after)
    ensures DocChanged(r) == 0 <==> forall kind :: SameEverywhere(g, before, after, kind)
  {
    forall kind ensures SameEverywhere(g, before, after, kind) <==> ZoneSize(ZoneOf(r, kind)) == 0 {
      assert HasZone(g, before, after, r, kind);
      EmptyZoneIff(At(g, id, kind), EntitiesOf(before, kind), EntitiesOf(after, kind), ZoneOf(r, kind));
    }
    assert DocChanged(r) == ZoneSize(ZoneOf(r, Node)) + ZoneSize(ZoneOf(r, Edge)) + ZoneSize(ZoneOf(r, Evidence));
  }

  // Two lists hold the same ids, and under each id claims of the kind that say the same.
  ghost predicate SameList(nfc: string -> string, kind: Kind, a: seq<Entity>, b: seq<Entity>) {
    var x, y := IndexOf(TagEntities(a)), IndexOf(TagEntities(b));
    x.Keys == y.Keys && forall id :: id in x && id in y ==> SameClaim(nfc, kind, x[id], y[id])
  }

  lemma SameOfKind(g: Hashing, before: Option<Project>, after: Option<Project>)
    ensures SameEverywhere(g, before, after, Node) <==>
            SameList(g.nfc, Node, ListsOf(before).nodes, ListsOf(after).nodes)
    ensures SameEverywhere(g, before, after, Edge) <==>
            SameList(g.nfc, Edge, ListsOf(before).edges, ListsOf(after).edges)
    ensures SameEverywhere(g, before, after, Evidence) <==>
            SameList(g.nfc, Evidence, ListsOf(before).evidence, ListsOf(after).evidence)
  {
    ListOfKind(before);
    ListOfKind(after);
  }

  lemma SameListsIff(g: Hashing, before: Option<Project>, after: Option<Project>)
    ensures (forall kind :: SameEverywhere(g, before, after, kind)) <==>
            var p, q := ListsOf(before), ListsOf(after);
            SameList(g.nfc, Node, p.nodes, q.nodes) && SameList(g.nfc, Edge, p.edges, q.edges) &&
            SameList(g.nfc, Evidence, p.evidence, q.evidence)
  {
    SameOfKind(g, before, after);
    if SameEverywhere(g, before, after, Node) && SameEverywhere(g, before, after, Edge) &&
       SameEverywhere(g, before, after, Evidence)
    {
      forall kind ensures SameEverywhere(g, before, after, kind) {
        match kind case Node => case Edge => case Evidence =>
      }
    }
  }

  /**
    A document is unchanged exactly when both sides have it, and their nodes, edges and evidence make the same claims.
  */
  lemma UnchangedIff(g: Hashing, id: string, before: Option<Project>, after: Option<Project>, r: DocResult)
    requires IsDocDiff(g, id, before, after, r) && DocInputs(g, id, before, after)
    ensures r.state == UnchangedDoc <==>
            before.Some? && after.Some? &&
            SameList(g.nfc, Node, before.value.nodes, after.value.nodes) &&
            SameList(g.nfc, Edge, before.value.edges, after.value.edges) &&
            SameList(g.nfc, Evidence, before.value.evidence, after.value.evidence)
  {
    StateOf(g, id, before, after, r);
    NothingChangedIff(g, id, before, after, r);
    SameListsIff(g, before, after);
  }

  // ---- Order ----

  ghost predicate SameProject(p: Project, q: Project) {
    multiset(p.nodes) == multiset(q.nodes) && multiset(p.edges) == multiset(q.edges) &&
    multiset(p.evidence) == multiset(q.evidence) && SameGiven(p.given, q.given)
  }

  // The same documents, each with its entities in any order.
  ghost predicate SameDocuments(a: Documents, b: Documents) {
    a.Keys == b.Keys && forall id :: id in a && id in b ==> SameProject(a[id], b[id])
  }

  lemma DocDiffIsUnique(g: Hashing, id: string, before: Option<Project>, after: Option<Project>, q: DocResult,
                        r: DocResult)
    requires IsDocDiff(g, id, before, after, q) && IsDocDiff(g, id, before, after, r)
    ensures q == r
  {
    forall kind ensures ZoneOf(q, kind) == ZoneOf(r, kind) {
      assert HasZone(g, before, after, q, kind) && HasZone(g, before, after, r, kind);
      ZoneDiffIsUnique(At(g, id, kind), EntitiesOf(before, kind), EntitiesOf(after, kind), ZoneOf(q, kind),
                       ZoneOf(r, kind));
    }
    assert q.nodes == ZoneOf(q, Node) && q.edges == ZoneOf(q, Edge) && q.evidence == ZoneOf(q, Evidence);
    assert r.nodes == ZoneOf(r, Node) && r.edges == ZoneOf(r, Edge) && r.evidence == ZoneOf(r, Evidence);
    BlockTableIsUnique(AllHashes(q), q.blockHashes, r.blockHashes);
  }

  lemma BlockTableIsUnique(hashes: map<string, (string, string)>, t: seq<BlockHash>, u: seq<BlockHash>)
    requires IsBlockTable(hashes, t) && IsBlockTable(hashes, u)
    ensures t == u
  {
    ListsUnique(BlockKeys(t), BlockKeys(u), hashes.Keys);
    assert |t| == |BlockKeys(t)| == |u|;
    forall i | 0 <= i < |t| ensures t[i] == u[i] {
      assert t[i].key == BlockKeys(t)[i] == BlockKeys(u)[i] == u[i].key;
    }
  }

  lemma SameEntitiesOf(a: Documents, b: Documents, id: string, kind: Kind)
    requires SameDocuments(a, b)
    requires id in a ==> CanIndex(TagEntities(EntityList(Find(a, id), kind)))
    ensures EntitiesOf(Find(a, id), kind) == EntitiesOf(Find(b, id), kind)
  {
    if id in a {
      assert id in b && SameProject(a[id], b[id]);
      var s, t := EntityList(Find(a, id), kind), EntityList(Find(b, id), kind);
      assert multiset(s) == multiset(t);
      TagsIgnoreOrder(s, t);
      IndexIgnoresOrder(TagEntities(s), TagEntities(t));
    }
  }

  lemma SameFiled(a: Documents, a': Documents, id: string)
    requires SameDocuments(a, a') && id in a
    ensures Filed(id, a[id]) == Filed(id, a'[id])
  {
    NormalizedIgnoresOrder(id, a[id].given, a'[id].given);
  }

  lemma SameDocDiff(g: Hashing, a: Documents, b: Documents, a': Documents, b': Documents, id: string, r: DocResult)
    requires SameDocuments(a, a') && SameDocuments(b, b') && BatchComparable(g, a, b) && (id in a || id in b)
    requires IsDocDiff(g, id, Find(a', id), Find(b', id), r)
    ensures IsDocDiff(g, id, Find(a, id), Find(b, id), r)
  {
    assert DocComparable(g, id, Find(a, id), Find(b, id));
    assert id in a <==> id in a';
    assert id in b <==> id in b';
    if id in a { SameFiled(a, a', id); }
    if id in b { SameFiled(b, b', id); }
    forall kind ensures HasZone(g, Find(a, id), Find(b, id), r, kind) {
      assert ZoneComparable(g, id, Find(a, id), Find(b, id), kind);
      SameEntitiesOf(a, a', id, kind);
      SameEntitiesOf(b, b', id, kind);
      assert HasZone(g, Find(a', id), Find(b', id), r, kind);
    }
  }

  lemma OneSideDiffable(a: Documents, a': Documents, id: string, kind: Kind)
    requires SameDocuments(a, a')
    ensures CanIndex(TagEntities(EntityList(Find(a, id), kind))) <==>
            CanIndex(TagEntities(EntityList(Find(a', id), kind)))
  {
    if id in a {
      assert id in a' && SameProject(a[id], a'[id]);
      var s, t := EntityList(Find(a, id), kind), EntityList(Find(a', id), kind);
      assert multiset(s) == multiset(t);
      TagsIgnoreOrder(s, t);
      IndexIgnoresOrder(TagEntities(s), TagEntities(t));
    }
  }

  lemma StillComparable(g: Hashing, a: Documents, b: Documents, a': Documents, b': Documents)
    requires SameDocuments(a, a') && SameDocuments(b, b') && BatchComparable(g, a, b)
    ensures BatchComparable(g, a', b')
  {
    forall id, kind | id in a' || id in b' ensures ZoneComparable(g, id, Find(a', id), Find(b', id), kind) {
      assert id in a || id in b;
      assert DocComparable(g, id, Find(a, id), Find(b, id));
      assert ZoneComparable(g, id, Find(a, id), Find(b, id), kind);
      OneSideDiffable(a, a', id, kind);
      OneSideDiffable(b, b', id, kind);
      SameEntitiesOf(a, a', id, kind);
      SameEntitiesOf(b, b', id, kind);
    }
  }

  lemma SameDocumentsSymmetric(a: Documents, b: Documents)
    requires SameDocuments(a, b)
    ensures SameDocuments(b, a)
  {
  }

  /** Whether the documents can be compared does not depend on the order of their entities. */
  lemma ComparableIgnoresOrder(g: Hashing, a: Documents, b: Documents, a': Documents, b': Documents)
    requires SameDocuments(a, a') && SameDocuments(b, b')
    ensures BatchComparable(g, a, b) <==> BatchComparable(g, a', b')
  {
    if BatchComparable(g, a, b) { StillComparable(g, a, b, a', b'); }
    if BatchComparable(g, a', b') {
      SameDocumentsSymmetric(a, a');
      SameDocumentsSymmetric(b, b');
      StillComparable(g, a', b', a, b);
    }
  }

  // The diffs do not depend on the order of entities in a document.
  lemma SameBatch(g: Hashing, a: Documents, b: Documents, a': Documents, b': Documents, q: seq<DocResult>,
                          r: seq<DocResult>)
    requires SameDocuments(a, a') && SameDocuments(b, b') && BatchComparable(g, a, b)
    requires IsBatch(g, a, b, q) && IsBatch(g, a', b', r)
    ensures q == r
  {
    assert a.Keys + b.Keys == a'.Keys + b'.Keys;
    ListsUnique(Names(q), Names(r), a.Keys + b.Keys);
    assert |Names(q)| == |q| && |Names(r)| == |r|;
    forall i | 0 <= i < |q| ensures q[i] == r[i] {
      var id := q[i].documentId;
      assert id == Names(q)[i] == Names(r)[i] == r[i].documentId;
      assert Names(q)[i] in Names(q);
      SameDocDiff(g, a, b, a', b', id, r[i]);
      DocDiffIsUnique(g, id, Find(a, id), Find(b, id), q[i], r[i]);
    }
  }

  // A group given in another order, its documents' entities in another order too.
  ghost predicate Reordered(docs: seq<DocInput>, others: seq<DocInput>) {
    exists middle :: multiset(TagDocuments(docs)) == multiset(TagDocuments(middle)) && SamePieces(middle, others)
  }

  ghost predicate SamePieces(docs: seq<DocInput>, others: seq<DocInput>) {
    |docs| == |others| &&
    forall i :: 0 <= i < |docs| ==>
      docs[i].documentId == others[i].documentId && SameProject(docs[i].project, others[i].project)
  }

  lemma SamePiecesCanIndex(docs: seq<DocInput>, others: seq<DocInput>)
    requires SamePieces(docs, others)
    ensures CanIndex(TagDocuments(docs)) <==> CanIndex(TagDocuments(others))
  {
    var s, t := TagDocuments(docs), TagDocuments(others);
    assert forall i :: 0 <= i < |s| ==> s[i].id == t[i].id;
  }

  /** Reordering a group leaves it a group, of the same documents, or leaves it none. */
  lemma ReorderedGroups(docs: seq<DocInput>, others: seq<DocInput>)
    requires Reordered(docs, others)
    ensures CanIndex(TagDocuments(docs)) <==> CanIndex(TagDocuments(others))
    ensures CanIndex(TagDocuments(docs)) ==> SameDocuments(IndexOf(TagDocuments(docs)), IndexOf(TagDocuments(others)))
  {
    var middle :| multiset(TagDocuments(docs)) == multiset(TagDocuments(middle)) && SamePieces(middle, others);
    IndexIgnoresOrder(TagDocuments(docs), TagDocuments(middle));
    SamePiecesCanIndex(middle, others);
    if CanIndex(TagDocuments(docs)) { SamePiecesIndex(middle, others); }
  }

  // A group described the same, its documents in another order.
  ghost predicate ReorderedGroup(group: GroupInput, other: GroupInput) {
    group.groupId == other.groupId && group.groupLabel == other.groupLabel &&
    Reordered(group.documents, other.documents)
  }

  lemma SameDescriptor(group: GroupInput, other: GroupInput, fallbackId: string, fallbackLabel: string,
                       d: Descriptor, e: Descriptor)
    requires ReorderedGroup(group, other) && CanIndex(TagDocuments(group.documents))
    requires Describes(group, fallbackId, fallbackLabel, d) && Describes(other, fallbackId, fallbackLabel, e)
    ensures d == e
  {
    ReorderedGroups(group.documents, other.documents);
    ListsUnique(d.documentIds, e.documentIds, IndexOf(TagDocuments(group.documents)).Keys);
  }

  /**
    The batch does not depend on the order of documents in a group or of entities or references
    in a document: reordered groups give the same result, or fail as well.
  */
  lemma BatchIgnoresOrder(g: Hashing, baseline: GroupInput, comparison: GroupInput,
                          baseline': GroupInput, comparison': GroupInput,
                          q: Result<Batch, BatchError>, r: Result<Batch, BatchError>)
    requires ReorderedGroup(baseline, baseline') && ReorderedGroup(comparison, comparison')
    requires IsBatchAnswer(g, baseline, comparison, q) && IsBatchAnswer(g, baseline', comparison', r)
    ensures q.Ok? <==> r.Ok?
    ensures q.Ok? ==> q == r
  {
    ReorderedGroups(baseline.documents, baseline'.documents);
    ReorderedGroups(comparison.documents, comparison'.documents);
    if CanIndex(TagDocuments(baseline.documents)) && CanIndex(TagDocuments(comparison.documents)) {
      var a, b := IndexOf(TagDocuments(baseline.documents)), IndexOf(TagDocuments(comparison.documents));
      var a', b' := IndexOf(TagDocuments(baseline'.documents)), IndexOf(TagDocuments(comparison'.documents));
      ComparableIgnoresOrder(g, a, b, a', b');
      if q.Ok? {
        SameBatch(g, a, b, a', b', q.value.documents, r.value.documents);
        SameDescriptor(baseline, baseline', "baseline", "Baseline", q.value.baseline, r.value.baseline);
        SameDescriptor(comparison, comparison', "comparison", "Comparison", q.value.comparison, r.value.comparison);
      }
    }
  }

  lemma SamePiecesIndex(docs: seq<DocInput>, others: seq<DocInput>)
    requires SamePieces(docs, others) && CanIndex(TagDocuments(docs))
    ensures CanIndex(TagDocuments(others)) && SameDocuments(IndexOf(TagDocuments(docs)), IndexOf(TagDocuments(others)))
  {
    assert forall i :: 0 <= i < |docs| ==> TagDocuments(docs)[i].id == TagDocuments(others)[i].id;
    forall k | k in IndexOf(TagDocuments(docs))
      ensures k in IndexOf(TagDocuments(others)) &&
              SameProject(IndexOf(TagDocuments(docs))[k], IndexOf(TagDocuments(others))[k])
    {
      SamePieceAt(docs, others, k);
    }
    forall k | k in IndexOf(TagDocuments(others)) ensures k in IndexOf(TagDocuments(docs)) {
      SamePieceAt(others, docs, k);
    }
  }

  lemma SamePieceAt(docs: seq<DocInput>, others: seq<DocInput>, k: string)
    requires SamePieces(docs, others) && CanIndex(TagDocuments(docs)) && CanIndex(TagDocuments(others))
    requires k in IndexOf(TagDocuments(docs))
    ensures k in IndexOf(TagDocuments(others)) &&
            SameProject(IndexOf(TagDocuments(docs))[k], IndexOf(TagDocuments(others))[k])
  {
    var s, t := TagDocuments(docs), TagDocuments(others);
    var project := IndexOf(s)[k];
    IndexedByIdIff(s, k, project);
    var i :| 0 <= i < |s| && s[i] == Tagged(Some(k), project);
    assert t[i] == Tagged(Some(k), others[i].project);
    IndexedByIdIff(t, k, others[i].project);
    assert docs[i].project == project;
  }

  // ---- The block hash table ----

  lemma KindsShareNoKeys(g: Hashing, id: string, before: Option<Project>, after: Option<Project>, r: DocResult,
                         k: Kind, l: Kind)
    requires IsDocDiff(g, id, before, after, r) && k != l
    ensures ZoneOf(r, k).hashes.Keys !! ZoneOf(r, l).hashes.Keys
  {
    assert HasZone(g, before, after, r, k) && HasZone(g, before, after, r, l);
    forall key | key in ZoneOf(r, k).hashes && key in ZoneOf(r, l).hashes ensures false {
      var x :| key == EntityKey(id, k, x);
      var y :| key == EntityKey(id, l, y);
      EntityKeyInjective(id, k, x, id, l, y);
    }
  }

  /** The block hash table of a document has exactly one entry for every change in its three zones. */
  lemma OneHashPairPerChange(g: Hashing, id: string, before: Option<Project>, after: Option<Project>, r: DocResult)
    requires IsDocDiff(g, id, before, after, r)
    ensures |r.blockHashes| == DocChanged(r)
  {
    forall kind ensures |ZoneOf(r, kind).hashes| == ZoneSize(ZoneOf(r, kind)) {
      assert HasZone(g, before, after, r, kind);
      IdsArePartitioned(At(g, id, kind), EntitiesOf(before, kind), EntitiesOf(after, kind), ZoneOf(r, kind));
    }
    KindsShareNoKeys(g, id, before, after, r, Node, Edge);
    KindsShareNoKeys(g, id, before, after, r, Node, Evidence);
    KindsShareNoKeys(g, id, before, after, r, Edge, Evidence);
    TableOfThree(ZoneOf(r, Node).hashes, ZoneOf(r, Edge).hashes, ZoneOf(r, Evidence).hashes);
    ListLength(BlockKeys(r.blockHashes), AllHashes(r).Keys);
  }

  lemma TableOfThree(x: map<string, (string, string)>, y: map<string, (string, string)>,
                     z: map<string, (string, string)>)
    requires x.Keys !! y.Keys && x.Keys !! z.Keys && y.Keys !! z.Keys
    ensures |(x + y + z).Keys| == |x| + |y| + |z|
  {
    assert (x + y + z).Keys == x.Keys + y.Keys + z.Keys;
    assert |x.Keys + y.Keys| == |x.Keys| + |y.Keys|;
    assert |x.Keys + y.Keys + z.Keys| == |x.Keys + y.Keys| + |z.Keys|;
    assert |x| == |x.Keys| && |y| == |y.Keys| && |z| == |z.Keys|;
  }

  // ---- Retained provenance ----

  /** The baseline's provenance is retained exactly when both sides have the document and say different things of it. */
  lemma BaselineProvenanceIsRetainedIff(g: Hashing, id: string, before: Option<Project>, after: Option<Project>,
                                        r: DocResult)
    requires IsDocDiff(g, id, before, after, r) && KeepsProvenanceNames(g.nfc)
    ensures r.baselineProvenance.Some? <==>
              before.Some? && after.Some? && !SayTheSame(g.nfc, Filed(id, before.value), Filed(id, after.value))
    ensures r.baselineProvenance.Some? ==> r.baselineProvenance.value == Filed(id, before.value)
    ensures r.provenance.documentId == id
    ensures after.Some? ==> r.provenance == Normalized(id, after.value.given)
    ensures after.None? && before.Some? ==> r.provenance == Normalized(id, before.value.given)
  {
    if before.Some? && after.Some? { ProvenanceTextsIff(g.nfc, Filed(id, before.value), Filed(id, after.value)); }
  }
}
