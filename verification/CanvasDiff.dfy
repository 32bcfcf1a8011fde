/** The zone diff of one entity kind: indexed, hashed through a cache in chunks, classified; and what it means. */
module CanvasDiff {
  import opened Wrappers
  import opened Utf8
  import opened CanonicalJson
  import opened CanvasClaims

  const HASH_CHUNK: nat := 128

  datatype DiffError = BadIndex(why: IndexError) | UndefinedField

  datatype Modified = Modified(id: string, oldHash: string, newHash: string, changedFields: seq<string>)

  datatype Zone = Zone(
    added: seq<string>,
    removed: seq<string>,
    modified: seq<Modified>,
    hashes: map<string, (string, string)>
  )

  // Everything a zone diff depends on; h is the block hash of a claim key.
  datatype Setting = Setting(nfc: string -> string, h: string -> string, documentId: string, kind: Kind)

  type Entities = map<string, Entity>

  // ---- Changed fields ----

  ghost function ChangedSet(nfc: string -> string, kind: Kind, a: Entity, b: Entity): set<string> {
    set f | f in ClaimFields(kind) && f in a && f in b && MeaningOf(nfc, a[f]) != MeaningOf(nfc, b[f])
  }

  method TextsDiffer(nfc: string -> string, u: Value, v: Value) returns (differ: bool)
    requires WellFormed(u) && WellFormed(v)
    ensures differ <==> MeaningOf(nfc, u) != MeaningOf(nfc, v)
  {
    CanonicalTextIffSameMeaning(nfc, u, v);
    return Canonicalize(nfc, u) != Canonicalize(nfc, v);
  }

  /**
    The fields whose canonical texts differ. A field on one side only has no text:
    canonicalizing its absent value throws, here None.
  */
  method ChangedClaimFields(nfc: string -> string, kind: Kind, a: Entity, b: Entity) returns (r: Option<seq<string>>)
    requires WellFormedEntity(a) && WellFormedEntity(b)
    ensures r.Some? <==> SameFields(kind, a, b)
    ensures r.Some? ==> Lists(r.value, ChangedSet(nfc, kind, a, b))
  {
    var names, changed: set<string> := ClaimFields(kind), {};
    for i := 0 to |names|
      invariant forall j :: 0 <= j < i ==> (names[j] in a <==> names[j] in b)
      invariant forall f :: f in changed <==>
                f in names[..i] && f in a && f in b && MeaningOf(nfc, a[f]) != MeaningOf(nfc, b[f])
    {
      var f := names[i];
      assert names[..i + 1] == names[..i] + [f];
      if (f in a) != (f in b) { return None; }
      if f in a {
        var differ := TextsDiffer(nfc, a[f], b[f]);
        if differ { changed := changed + {f}; }
      }
    }
    assert names[..|names|] == names;
    assert changed == ChangedSet(nfc, kind, a, b);
    var sorted := SortedIds(changed);
    return Some(sorted);
  }

  // ---- Hashing ----

  function BlockHash(s: Setting, e: Entity): string {
    s.h(ClaimKey(s.nfc, s.kind, e))
  }

  function HashesOf(s: Setting, m: Entities): map<string, string> {
    map id | id in m :: BlockHash(s, m[id])
  }

  // The cache holds nothing but hashes of its keys.
  ghost predicate Sound(h: string -> string, cache: map<string, string>) {
    forall k :: k in cache ==> cache[k] == h(k)
  }

  method HashEntity(s: Setting, e: Entity, cache: map<string, string>) returns (hash: string, next: map<string, string>)
    requires Sound(s.h, cache)
    ensures hash == BlockHash(s, e) && Sound(s.h, next)
  {
    var key := ClaimKey(s.nfc, s.kind, e);
    if key in cache { return cache[key], cache; }
    hash := s.h(key);
    next := cache[key := hash];
  }

  ghost predicate HashedUpTo(s: Setting, ids: seq<string>, n: nat, m: Entities, hashes: map<string, string>)
    requires n <= |ids|
  {
    (forall id :: id in hashes <==> id in ids[..n] && id in m) &&
    forall id :: id in hashes ==> hashes[id] == BlockHash(s, m[id])
  }

  method HashChunk(s: Setting, ids: seq<string>, from: nat, to: nat, m: Entities, hashes: map<string, string>,
                   cache: map<string, string>)
    returns (more: map<string, string>, next: map<string, string>)
    requires from <= to <= |ids| && Sound(s.h, cache) && HashedUpTo(s, ids, from, m, hashes)
    ensures Sound(s.h, next) && HashedUpTo(s, ids, to, m, more)
  {
    more, next := hashes, cache;
    for i := from to to
      invariant Sound(s.h, next) && HashedUpTo(s, ids, i, m, more)
    {
      assert ids[..i + 1] == ids[..i] + [ids[i]];
      if ids[i] in m {
        var hash;
        hash, next := HashEntity(s, m[ids[i]], next);
        more := more[ids[i] := hash];
      }
    }
  }

  /** Hashing both sides, a chunk at a time through one cache, gives every entity its own hash. */
  method HashSides(s: Setting, ids: seq<string>, a: Entities, b: Entities, cache: map<string, string>)
    returns (ha: map<string, string>, hb: map<string, string>, next: map<string, string>)
    requires Sound(s.h, cache) && Lists(ids, a.Keys + b.Keys)
    ensures ha == HashesOf(s, a) && hb == HashesOf(s, b) && Sound(s.h, next)
  {
    ha, hb, next := map[], map[], cache;
    var offset := 0;
    while offset < |ids|
      invariant 0 <= offset <= |ids| && Sound(s.h, next)
      invariant HashedUpTo(s, ids, offset, a, ha) && HashedUpTo(s, ids, offset, b, hb)
    {
      var end := if offset + HASH_CHUNK <= |ids| then offset + HASH_CHUNK else |ids|;
      ha, next := HashChunk(s, ids, offset, end, a, ha, next);
      hb, next := HashChunk(s, ids, offset, end, b, hb, next);
      offset := end;
    }
    HashedAll(s, ids, a, ha);
    HashedAll(s, ids, b, hb);
  }

  lemma HashedAll(s: Setting, ids: seq<string>, m: Entities, hashes: map<string, string>)
    requires HashedUpTo(s, ids, |ids|, m, hashes) && forall id :: id in m ==> id in ids
    ensures hashes == HashesOf(s, m)
  {
    assert ids[..|ids|] == ids;
  }

  // ---- The plain definition ----

  ghost function ModifiedIds(s: Setting, a: Entities, b: Entities): set<string> {
    set id | id in a && id in b && BlockHash(s, a[id]) != BlockHash(s, b[id])
  }

  ghost function ChangedIds(s: Setting, a: Entities, b: Entities): set<string> {
    (b.Keys - a.Keys) + (a.Keys - b.Keys) + ModifiedIds(s, a, b)
  }

  function HashIn(s: Setting, m: Entities, id: string): string {
    if id in m then BlockHash(s, m[id]) else ""
  }

  function Ids(modified: seq<Modified>): (r: seq<string>)
    ensures |r| == |modified| && forall i :: 0 <= i < |r| ==> r[i] == modified[i].id
  {
    seq(|modified|, i requires 0 <= i < |modified| => modified[i].id)
  }

  ghost predicate IsModification(s: Setting, a: Entities, b: Entities, m: Modified) {
    m.id in a && m.id in b &&
    m.oldHash == BlockHash(s, a[m.id]) && m.newHash == BlockHash(s, b[m.id]) &&
    Lists(m.changedFields, ChangedSet(s.nfc, s.kind, a[m.id], b[m.id]))
  }

  ghost predicate IsHashTable(s: Setting, a: Entities, b: Entities, ids: set<string>,
                              hashes: map<string, (string, string)>) {
    (forall k :: k in hashes <==> exists id :: id in ids && k == EntityKey(s.documentId, s.kind, id)) &&
    forall id :: id in ids ==>
      var k := EntityKey(s.documentId, s.kind, id);
      k in hashes && hashes[k] == (HashIn(s, a, id), HashIn(s, b, id))
  }

  // z is the diff of a and b as far as the ids in done go.
  ghost predicate IsDiffOf(s: Setting, a: Entities, b: Entities, done: set<string>, z: Zone) {
    Lists(z.added, done * (b.Keys - a.Keys)) &&
    Lists(z.removed, done * (a.Keys - b.Keys)) &&
    Lists(Ids(z.modified), done * ModifiedIds(s, a, b)) &&
    (forall i :: 0 <= i < |z.modified| ==> IsModification(s, a, b, z.modified[i])) &&
    IsHashTable(s, a, b, done * ChangedIds(s, a, b), z.hashes)
  }

  ghost predicate IsZoneDiff(s: Setting, a: Entities, b: Entities, z: Zone) {
    IsDiffOf(s, a, b, a.Keys + b.Keys, z)
  }

  // Every hash difference is one whose fields can be compared.
  ghost predicate Comparable(s: Setting, a: Entities, b: Entities) {
    forall id :: id in ModifiedIds(s, a, b) ==> SameFields(s.kind, a[id], b[id])
  }

  ghost predicate ComparableIn(s: Setting, a: Entities, b: Entities, ids: set<string>) {
    forall id :: id in ids && id in ModifiedIds(s, a, b) ==> SameFields(s.kind, a[id], b[id])
  }

  ghost predicate AllWellFormed(m: Entities) {
    forall id :: id in m ==> WellFormedEntity(m[id])
  }

  // ---- Classification ----

  lemma HashTableGrows(s: Setting, a: Entities, b: Entities, ids: set<string>, hashes: map<string, (string, string)>,
                       id: string)
    requires IsHashTable(s, a, b, ids, hashes)
    ensures IsHashTable(s, a, b, ids + {id},
                        hashes[EntityKey(s.documentId, s.kind, id) := (HashIn(s, a, id), HashIn(s, b, id))])
  {
    var key := EntityKey(s.documentId, s.kind, id);
    var more := hashes[key := (HashIn(s, a, id), HashIn(s, b, id))];
    forall k ensures k in more <==> exists x :: x in ids + {id} && k == EntityKey(s.documentId, s.kind, x) {
      if k == key { assert id in ids + {id}; }
      if k in hashes {
        var x :| x in ids && k == EntityKey(s.documentId, s.kind, x);
        assert x in ids + {id};
      }
      if x :| x in ids + {id} && k == EntityKey(s.documentId, s.kind, x) {
        if x != id { assert x in ids; }
      }
    }
    forall x | x in ids + {id}
      ensures var k := EntityKey(s.documentId, s.kind, x);
              k in more && more[k] == (HashIn(s, a, x), HashIn(s, b, x))
    {
      if x != id && EntityKey(s.documentId, s.kind, x) == key {
        EntityKeyInjective(s.documentId, s.kind, x, s.documentId, s.kind, id);
      }
    }
  }

  ghost predicate AllBefore(done: set<string>, id: string) {
    forall x :: x in done ==> StrBefore(x, id)
  }

  lemma ListMeets(list: seq<string>, done: set<string>, part: set<string>, id: string)
    requires Lists(list, done * part) && AllBefore(done, id)
    ensures Lists(if id in part then list + [id] else list, (done + {id}) * part)
  {
    if id in part {
      ListAppend(list, done * part, id);
      assert (done + {id}) * part == done * part + {id};
    } else {
      assert (done + {id}) * part == done * part;
    }
  }

  lemma ListsMeet(s: Setting, a: Entities, b: Entities, done: set<string>, z: Zone, id: string)
    requires IsDiffOf(s, a, b, done, z) && AllBefore(done, id)
    ensures Lists(if id in b.Keys - a.Keys then z.added + [id] else z.added, (done + {id}) * (b.Keys - a.Keys))
    ensures Lists(if id in a.Keys - b.Keys then z.removed + [id] else z.removed, (done + {id}) * (a.Keys - b.Keys))
    ensures Lists(if id in ModifiedIds(s, a, b) then Ids(z.modified) + [id] else Ids(z.modified),
                  (done + {id}) * ModifiedIds(s, a, b))
  {
    ListMeets(z.added, done, b.Keys - a.Keys, id);
    ListMeets(z.removed, done, a.Keys - b.Keys, id);
    ListMeets(Ids(z.modified), done, ModifiedIds(s, a, b), id);
  }

  lemma TableMeets(s: Setting, a: Entities, b: Entities, done: set<string>, hashes: map<string, (string, string)>,
                   id: string)
    requires IsHashTable(s, a, b, done * ChangedIds(s, a, b), hashes)
    ensures IsHashTable(s, a, b, (done + {id}) * ChangedIds(s, a, b),
              if id in ChangedIds(s, a, b)
              then hashes[EntityKey(s.documentId, s.kind, id) := (HashIn(s, a, id), HashIn(s, b, id))]
              else hashes)
  {
    var changed := ChangedIds(s, a, b);
    if id in changed {
      HashTableGrows(s, a, b, done * changed, hashes, id);
      assert (done + {id}) * changed == done * changed + {id};
    } else {
      assert (done + {id}) * changed == done * changed;
    }
  }

  lemma AddedMeets(s: Setting, a: Entities, b: Entities, done: set<string>, z: Zone, id: string)
    requires IsDiffOf(s, a, b, done, z) && AllBefore(done, id) && id !in a && id in b
    ensures IsDiffOf(s, a, b, done + {id},
              z.(added := z.added + [id],
                 hashes := z.hashes[EntityKey(s.documentId, s.kind, id) := ("", BlockHash(s, b[id]))]))
  {
    ListsMeet(s, a, b, done, z, id);
    TableMeets(s, a, b, done, z.hashes, id);
  }

  lemma RemovedMeets(s: Setting, a: Entities, b: Entities, done: set<string>, z: Zone, id: string)
    requires IsDiffOf(s, a, b, done, z) && AllBefore(done, id) && id in a && id !in b
    ensures IsDiffOf(s, a, b, done + {id},
              z.(removed := z.removed + [id],
                 hashes := z.hashes[EntityKey(s.documentId, s.kind, id) := (BlockHash(s, a[id]), "")]))
  {
    ListsMeet(s, a, b, done, z, id);
    TableMeets(s, a, b, done, z.hashes, id);
  }

  lemma SameMeets(s: Setting, a: Entities, b: Entities, done: set<string>, z: Zone, id: string)
    requires IsDiffOf(s, a, b, done, z) && AllBefore(done, id) && id in a && id in b &&
             BlockHash(s, a[id]) == BlockHash(s, b[id])
    ensures IsDiffOf(s, a, b, done + {id}, z)
  {
    ListsMeet(s, a, b, done, z, id);
    TableMeets(s, a, b, done, z.hashes, id);
  }

  lemma ModifiedMeets(s: Setting, a: Entities, b: Entities, done: set<string>, z: Zone, m: Modified)
    requires IsDiffOf(s, a, b, done, z) && AllBefore(done, m.id) && m.id in ModifiedIds(s, a, b) &&
             IsModification(s, a, b, m)
    ensures IsDiffOf(s, a, b, done + {m.id},
              z.(modified := z.modified + [m],
                 hashes := z.hashes[EntityKey(s.documentId, s.kind, m.id) := (m.oldHash, m.newHash)]))
  {
    ListsMeet(s, a, b, done, z, m.id);
    TableMeets(s, a, b, done, z.hashes, m.id);
    assert Ids(z.modified + [m]) == Ids(z.modified) + [m.id];
  }

  // One round of the classification loop; None when a field is on one side only.
  method Classify(s: Setting, a: Entities, b: Entities, oldHash: string, newHash: string, ghost done: set<string>,
                  z: Zone, id: string)
    returns (r: Option<Zone>)
    requires AllWellFormed(a) && AllWellFormed(b) && (id in a || id in b)
    requires oldHash == HashIn(s, a, id) && newHash == HashIn(s, b, id)
    requires IsDiffOf(s, a, b, done, z) && AllBefore(done, id)
    ensures r.None? <==> id in ModifiedIds(s, a, b) && !SameFields(s.kind, a[id], b[id])
    ensures r.Some? ==> IsDiffOf(s, a, b, done + {id}, r.value)
  {
    var key := EntityKey(s.documentId, s.kind, id);
    if id !in a {
      AddedMeets(s, a, b, done, z, id);
      return Some(z.(added := z.added + [id], hashes := z.hashes[key := ("", newHash)]));
    }
    if id !in b {
      RemovedMeets(s, a, b, done, z, id);
      return Some(z.(removed := z.removed + [id], hashes := z.hashes[key := (oldHash, "")]));
    }
    if oldHash == newHash {
      SameMeets(s, a, b, done, z, id);
      return Some(z);
    }
    var fields := ChangedClaimFields(s.nfc, s.kind, a[id], b[id]);
    if fields.None? { return None; }
    var m := Modified(id, oldHash, newHash, fields.value);
    ModifiedMeets(s, a, b, done, z, m);
    return Some(z.(modified := z.modified + [m], hashes := z.hashes[key := (oldHash, newHash)]));
  }

  lemma EmptyDiff(s: Setting, a: Entities, b: Entities)
    ensures IsDiffOf(s, a, b, {}, Zone([], [], [], map[]))
  {
    assert Ids([]) == [];
  }

  // The first n ids are classified, and none of them has a field on one side only.
  ghost predicate Classified(s: Setting, ids: seq<string>, n: nat, a: Entities, b: Entities, z: Zone)
    requires n <= |ids|
  {
    IsDiffOf(s, a, b, Listed(ids[..n]), z) && ComparableIn(s, a, b, Listed(ids[..n]))
  }

  method ClassifyNext(s: Setting, ids: seq<string>, i: nat, a: Entities, b: Entities, ha: map<string, string>,
                      hb: map<string, string>, z: Zone)
    returns (r: Option<Zone>)
    requires AllWellFormed(a) && AllWellFormed(b) && Lists(ids, a.Keys + b.Keys) && i < |ids|
    requires ha == HashesOf(s, a) && hb == HashesOf(s, b)
    requires Classified(s, ids, i, a, b, z)
    ensures r.None? <==> ids[i] in ModifiedIds(s, a, b) && !SameFields(s.kind, a[ids[i]], b[ids[i]])
    ensures r.Some? ==> Classified(s, ids, i + 1, a, b, r.value)
  {
    var id := ids[i];
    var oldHash := if id in ha then ha[id] else "";
    var newHash := if id in hb then hb[id] else "";
    LaterInOrder(ids, i);
    OnASide(ids, i, a, b);
    r := Classify(s, a, b, oldHash, newHash, Listed(ids[..i]), z, id);
    if r.Some? { OneMoreClassified(s, ids, i, a, b, r.value); }
  }

  lemma OnASide(ids: seq<string>, i: nat, a: Entities, b: Entities)
    requires i < |ids| && Lists(ids, a.Keys + b.Keys)
    ensures ids[i] in a || ids[i] in b
  {
    assert ids[i] in ids;
  }

  lemma OneMoreClassified(s: Setting, ids: seq<string>, i: nat, a: Entities, b: Entities, z: Zone)
    requires i < |ids| && IsDiffOf(s, a, b, Listed(ids[..i]) + {ids[i]}, z) && ComparableIn(s, a, b, Listed(ids[..i]))
    requires ids[i] in ModifiedIds(s, a, b) ==> SameFields(s.kind, a[ids[i]], b[ids[i]])
    ensures Classified(s, ids, i + 1, a, b, z)
  {
    assert ids[..i + 1] == ids[..i] + [ids[i]];
    assert Listed(ids[..i + 1]) == Listed(ids[..i]) + {ids[i]};
  }

  // All entries agree with the plain definition, or some field is on one side only.
  method ClassifyAll(s: Setting, ids: seq<string>, a: Entities, b: Entities, ha: map<string, string>,
                     hb: map<string, string>)
    returns (r: Option<Zone>)
    requires AllWellFormed(a) && AllWellFormed(b) && Lists(ids, a.Keys + b.Keys)
    requires ha == HashesOf(s, a) && hb == HashesOf(s, b)
    ensures r.Some? <==> Comparable(s, a, b)
    ensures r.Some? ==> IsZoneDiff(s, a, b, r.value)
  {
    var z := Zone([], [], [], map[]);
    EmptyDiff(s, a, b);
    assert Listed(ids[..0]) == {};
    for i := 0 to |ids|
      invariant Classified(s, ids, i, a, b, z)
    {
      var round := ClassifyNext(s, ids, i, a, b, ha, hb, z);
      if round.None? { return None; }
      z := round.value;
    }
    AllDone(s, ids, a, b, z);
    return Some(z);
  }

  lemma AllDone(s: Setting, ids: seq<string>, a: Entities, b: Entities, z: Zone)
    requires Lists(ids, a.Keys + b.Keys) && Classified(s, ids, |ids|, a, b, z)
    ensures IsZoneDiff(s, a, b, z) && Comparable(s, a, b)
  {
    assert ids[..|ids|] == ids;
    assert Listed(ids) == a.Keys + b.Keys;
  }

  ghost function Listed(ids: seq<string>): set<string> {
    set x | x in ids
  }

  lemma LaterInOrder(ids: seq<string>, i: nat)
    requires StrictlySorted(ids) && i < |ids|
    ensures AllBefore(Listed(ids[..i]), ids[i])
  {
    forall x | x in Listed(ids[..i]) ensures StrBefore(x, ids[i]) {
      var j :| 0 <= j < i && ids[..i][j] == x;
      assert ids[j] == x;
    }
  }

  /** The zone diff: fails exactly as indexing or field comparison does, and else meets the plain definition. */
  method DiffEntityZone(s: Setting, baseline: seq<Entity>, comparison: seq<Entity>, cache: map<string, string>)
    returns (r: Result<Zone, DiffError>, next: map<string, string>)
    requires Sound(s.h, cache)
    requires forall e :: e in baseline || e in comparison ==> WellFormedEntity(e)
    ensures Sound(s.h, next)
    ensures IsZoneAnswer(s, baseline, comparison, r)
  {
    next := cache;
    var first := Index(TagEntities(baseline));
    if first.Err? { return Err(BadIndex(first.error)), next; }
    var second := Index(TagEntities(comparison));
    if second.Err? { return Err(BadIndex(second.error)), next; }
    var a, b := first.value, second.value;
    IndexedAreWellFormed(baseline);
    IndexedAreWellFormed(comparison);
    var ids := SortedIds(a.Keys + b.Keys);
    var ha, hb;
    ha, hb, next := HashSides(s, ids, a, b, next);
    var z := ClassifyAll(s, ids, a, b, ha, hb);
    if z.None? { return Err(UndefinedField), next; }
    return Ok(z.value), next;
  }

  lemma IndexedAreWellFormed(entities: seq<Entity>)
    requires forall e :: e in entities ==> WellFormedEntity(e)
    requires CanIndex(TagEntities(entities))
    ensures AllWellFormed(IndexOf(TagEntities(entities)))
  {
    var m := IndexOf(TagEntities(entities));
    forall id | id in m ensures WellFormedEntity(m[id]) {
      IndexedByIdIff(TagEntities(entities), id, m[id]);
      var i :| 0 <= i < |entities| && TagEntities(entities)[i] == Tagged(Some(id), m[id]);
      assert entities[i] in entities;
    }
  }

  // ---- What the diff says ----

  // No two compared versions share a hash without sharing a claim key.
  ghost predicate NoCollisions(s: Setting, a: Entities, b: Entities) {
    forall id :: id in a && id in b && BlockHash(s, a[id]) == BlockHash(s, b[id]) ==>
      ClaimKey(s.nfc, s.kind, a[id]) == ClaimKey(s.nfc, s.kind, b[id])
  }

  ghost predicate Inputs(s: Setting, a: Entities, b: Entities) {
    KeepsFieldNames(s.nfc) && AllWellFormed(a) && AllWellFormed(b)
  }

  /** Modified means: on both sides, with claims that say different things. */
  lemma ModifiedIffClaimsDiffer(s: Setting, a: Entities, b: Entities, id: string)
    requires Inputs(s, a, b) && NoCollisions(s, a, b)
    ensures id in ModifiedIds(s, a, b) <==> id in a && id in b && !SameClaim(s.nfc, s.kind, a[id], b[id])
  {
    if id in a && id in b { ClaimKeysIff(s.nfc, s.kind, a[id], b[id]); }
  }

  /** The comparison goes through exactly when no entity on both sides has gained or lost a claim field. */
  lemma ComparableIff(s: Setting, a: Entities, b: Entities)
    requires Inputs(s, a, b) && NoCollisions(s, a, b)
    ensures Comparable(s, a, b) <==> forall id :: id in a && id in b ==> SameFields(s.kind, a[id], b[id])
  {
    forall id | id in a && id in b
      ensures id in ModifiedIds(s, a, b) || SameFields(s.kind, a[id], b[id])
    {
      ModifiedIffClaimsDiffer(s, a, b, id);
    }
  }

  // The identity for normalisation and hash: no collisions, and every name is kept.
  const PLAIN: Setting := Setting(x => x, x => x, "d", Edge)

  const OLD_EDGE: Entity := map["id" := Str("e"), "source" := Str("a"), "target" := Str("b")]
  const SURE_EDGE: Entity := OLD_EDGE["confidence" := Num("1")]

  /** An edge that gains a confidence makes the comparison throw. */
  lemma GainedConfidenceThrows()
    ensures !Comparable(PLAIN, map["e" := OLD_EDGE], map["e" := SURE_EDGE])
  {
    var a, b := map["e" := OLD_EDGE], map["e" := SURE_EDGE];
    assert WellFormed(Num("1"));
    ComparableIff(PLAIN, a, b);
    assert "confidence" == ClaimFields(Edge)[6];
    assert "confidence" in SURE_EDGE && "confidence" !in OLD_EDGE;
    assert !SameFields(Edge, a["e"], b["e"]);
  }

  /** A modified entity always names a field that changed. */
  lemma ModificationNamesAField(s: Setting, a: Entities, b: Entities, m: Modified)
    requires Inputs(s, a, b) && Comparable(s, a, b) && m.id in ModifiedIds(s, a, b) && IsModification(s, a, b, m)
    ensures m.changedFields != []
    ensures forall f :: f in m.changedFields ==> f in ClaimFields(s.kind)
  {
    var x, y := a[m.id], b[m.id];
    ClaimKeysIff(s.nfc, s.kind, x, y);
    assert !SameClaim(s.nfc, s.kind, x, y) && SameFields(s.kind, x, y);
    var f :| f in ClaimFields(s.kind) && f in x && f in y && MeaningOf(s.nfc, x[f]) != MeaningOf(s.nfc, y[f]);
    assert f in m.changedFields;
  }

  ghost function SameIds(s: Setting, a: Entities, b: Entities): set<string> {
    set id | id in a && id in b && BlockHash(s, a[id]) == BlockHash(s, b[id])
  }

  /** Added, removed, modified and unchanged ids partition the union of both sides. */
  lemma IdsArePartitioned(s: Setting, a: Entities, b: Entities, z: Zone)
    requires IsZoneDiff(s, a, b, z)
    ensures |z.added| + |z.removed| + |z.modified| + |SameIds(s, a, b)| == |a.Keys + b.Keys|
    ensures |z.hashes| == |z.added| + |z.removed| + |z.modified|
  {
    CountsOfLists(s, a, b, z);
    CountOfTable(s, a, b, a.Keys + b.Keys, z.hashes);
    SizesAddUp(s, a, b);
  }

  lemma SizesAddUp(s: Setting, a: Entities, b: Entities)
    ensures |b.Keys - a.Keys| + |a.Keys - b.Keys| + |ModifiedIds(s, a, b)| + |SameIds(s, a, b)| == |a.Keys + b.Keys|
    ensures |ChangedIds(s, a, b)| == |b.Keys - a.Keys| + |a.Keys - b.Keys| + |ModifiedIds(s, a, b)|
  {
    VennSizes(a.Keys, b.Keys);
    SharedSplit(s, a, b);
    AllSplit(s, a, b);
  }

  lemma SharedSplit(s: Setting, a: Entities, b: Entities)
    ensures |ModifiedIds(s, a, b)| + |SameIds(s, a, b)| == |a.Keys * b.Keys|
  {
    SplitSizes(ModifiedIds(s, a, b), SameIds(s, a, b), a.Keys * b.Keys);
  }

  lemma AllSplit(s: Setting, a: Entities, b: Entities)
    ensures |ChangedIds(s, a, b)| + |SameIds(s, a, b)| == |a.Keys + b.Keys|
  {
    SplitSizes(ChangedIds(s, a, b), SameIds(s, a, b), a.Keys + b.Keys);
  }

  lemma CountsOfLists(s: Setting, a: Entities, b: Entities, z: Zone)
    requires IsZoneDiff(s, a, b, z)
    ensures |z.added| == |b.Keys - a.Keys| && |z.removed| == |a.Keys - b.Keys| && |z.modified| == |ModifiedIds(s, a, b)|
  {
    CountOfList(z.added, a.Keys + b.Keys, b.Keys - a.Keys);
    CountOfList(z.removed, a.Keys + b.Keys, a.Keys - b.Keys);
    CountOfList(Ids(z.modified), a.Keys + b.Keys, ModifiedIds(s, a, b));
  }

  lemma CountOfList(list: seq<string>, all: set<string>, part: set<string>)
    requires Lists(list, all * part) && part <= all
    ensures |list| == |part|
  {
    assert all * part == part;
    ListLength(list, part);
  }

  lemma CountOfTable(s: Setting, a: Entities, b: Entities, all: set<string>, hashes: map<string, (string, string)>)
    requires IsHashTable(s, a, b, all * ChangedIds(s, a, b), hashes) && all == a.Keys + b.Keys
    ensures |hashes| == |ChangedIds(s, a, b)|
  {
    KeysCount(s, all * ChangedIds(s, a, b), hashes.Keys);
    AllChanged(s, a, b);
  }

  lemma AllChanged(s: Setting, a: Entities, b: Entities)
    ensures (a.Keys + b.Keys) * ChangedIds(s, a, b) == ChangedIds(s, a, b)
  {
  }

  lemma VennSizes(x: set<string>, y: set<string>)
    ensures |y - x| + |x - y| + |x * y| == |x + y|
  {
    SplitSizes(x, y - x, x + y);
    SplitSizes(x - y, x * y, x);
  }

  lemma SplitSizes(x: set<string>, y: set<string>, all: set<string>)
    requires forall k :: k in all <==> k in x || k in y
    requires forall k :: !(k in x && k in y)
    ensures |x| + |y| == |all|
  {
    assert x !! y && all == x + y;
  }

  lemma {:induction false} KeysCount(s: Setting, ids: set<string>, keys: set<string>)
    requires forall k :: k in keys <==> exists id :: id in ids && k == EntityKey(s.documentId, s.kind, id)
    ensures |keys| == |ids|
    decreases ids
  {
    if ids == {} {
      assert keys == {};
    } else {
      var id :| id in ids;
      var key := EntityKey(s.documentId, s.kind, id);
      assert key in keys;
      forall k ensures k in keys - {key} <==> exists x :: x in ids - {id} && k == EntityKey(s.documentId, s.kind, x) {
        KeyDropped(s, ids, keys, id, k);
      }
      KeysCount(s, ids - {id}, keys - {key});
    }
  }

  lemma KeyDropped(s: Setting, ids: set<string>, keys: set<string>, id: string, k: string)
    requires forall k :: k in keys <==> exists id :: id in ids && k == EntityKey(s.documentId, s.kind, id)
    requires id in ids
    ensures k in keys - {EntityKey(s.documentId, s.kind, id)} <==>
            exists x :: x in ids - {id} && k == EntityKey(s.documentId, s.kind, x)
  {
    if k in keys && k != EntityKey(s.documentId, s.kind, id) {
      var x :| x in ids && k == EntityKey(s.documentId, s.kind, x);
      assert x in ids - {id};
    }
    if x :| x in ids - {id} && k == EntityKey(s.documentId, s.kind, x) {
      assert x in ids;
      if k == EntityKey(s.documentId, s.kind, id) {
        EntityKeyInjective(s.documentId, s.kind, x, s.documentId, s.kind, id);
        assert false;
      }
    }
  }

  /** The definition leaves nothing open: a zone diff is determined by the two indexes. */
  lemma ZoneDiffIsUnique(s: Setting, a: Entities, b: Entities, y: Zone, z: Zone)
    requires IsZoneDiff(s, a, b, y) && IsZoneDiff(s, a, b, z)
    ensures y == z
  {
    var all := a.Keys + b.Keys;
    ListsUnique(y.added, z.added, all * (b.Keys - a.Keys));
    ListsUnique(y.removed, z.removed, all * (a.Keys - b.Keys));
    ListsUnique(Ids(y.modified), Ids(z.modified), all * ModifiedIds(s, a, b));
    assert |Ids(y.modified)| == |y.modified| && |Ids(z.modified)| == |z.modified|;
    forall i | 0 <= i < |y.modified| ensures y.modified[i] == z.modified[i] {
      var m, n := y.modified[i], z.modified[i];
      assert m.id == Ids(y.modified)[i] == Ids(z.modified)[i] == n.id;
      ListsUnique(m.changedFields, n.changedFields, ChangedSet(s.nfc, s.kind, a[m.id], b[m.id]));
    }
    HashTableIsUnique(s, a, b, all * ChangedIds(s, a, b), y.hashes, z.hashes);
  }

  lemma HashTableIsUnique(s: Setting, a: Entities, b: Entities, ids: set<string>, t: map<string, (string, string)>,
                          u: map<string, (string, string)>)
    requires IsHashTable(s, a, b, ids, t) && IsHashTable(s, a, b, ids, u)
    ensures t == u
  {
    assert forall k :: k in t <==> k in u;
    forall k | k in t ensures t[k] == u[k] {
      var id :| id in ids && k == EntityKey(s.documentId, s.kind, id);
    }
  }

  // Both lists can be indexed, and no modified entity has a field on one side only.
  ghost predicate Diffable(s: Setting, a: seq<Entity>, b: seq<Entity>) {
    CanIndex(TagEntities(a)) && CanIndex(TagEntities(b)) &&
    Comparable(s, IndexOf(TagEntities(a)), IndexOf(TagEntities(b)))
  }

  // What diffing two lists answers.
  ghost predicate IsZoneAnswer(s: Setting, a: seq<Entity>, b: seq<Entity>, r: Result<Zone, DiffError>) {
    (r.Ok? <==> Diffable(s, a, b)) &&
    (r.Ok? ==> IsZoneDiff(s, IndexOf(TagEntities(a)), IndexOf(TagEntities(b)), r.value))
  }

  lemma IndexesIgnoreOrder(s: Setting, a: seq<Entity>, b: seq<Entity>, a': seq<Entity>, b': seq<Entity>)
    requires multiset(a) == multiset(a') && multiset(b) == multiset(b')
    ensures Diffable(s, a, b) <==> Diffable(s, a', b')
    ensures Diffable(s, a, b) ==>
              IndexOf(TagEntities(a)) == IndexOf(TagEntities(a')) && IndexOf(TagEntities(b)) == IndexOf(TagEntities(b'))
  {
    TagsIgnoreOrder(a, a');
    TagsIgnoreOrder(b, b');
    IndexIgnoresOrder(TagEntities(a), TagEntities(a'));
    IndexIgnoresOrder(TagEntities(b), TagEntities(b'));
  }

  /** Reordering the entities of either side changes neither the diff nor whether there is one. */
  lemma DiffIgnoresOrder(s: Setting, a: seq<Entity>, b: seq<Entity>, a': seq<Entity>, b': seq<Entity>,
                         q: Result<Zone, DiffError>, r: Result<Zone, DiffError>)
    requires multiset(a) == multiset(a') && multiset(b) == multiset(b')
    requires IsZoneAnswer(s, a, b, q) && IsZoneAnswer(s, a', b', r)
    ensures q.Ok? <==> r.Ok?
    ensures q.Ok? ==> q == r
  {
    IndexesIgnoreOrder(s, a, b, a', b');
    if q.Ok? { ZoneDiffIsUnique(s, IndexOf(TagEntities(a)), IndexOf(TagEntities(b)), q.value, r.value); }
  }

  // ---- Swapping sides ----

  function SwapModified(m: Modified): Modified {
    m.(oldHash := m.newHash, newHash := m.oldHash)
  }

  function Swapped(z: Zone): Zone {
    Zone(z.removed, z.added,
         seq(|z.modified|, i requires 0 <= i < |z.modified| => SwapModified(z.modified[i])),
         map k | k in z.hashes :: (z.hashes[k].1, z.hashes[k].0))
  }

  /** Swapping the sides swaps added with removed and turns every hash pair round. */
  lemma SwappingSides(s: Setting, a: Entities, b: Entities, z: Zone)
    requires IsZoneDiff(s, a, b, z)
    ensures IsZoneDiff(s, b, a, Swapped(z))
    ensures Comparable(s, a, b) ==> Comparable(s, b, a)
  {
    var w := Swapped(z);
    assert b.Keys + a.Keys == a.Keys + b.Keys;
    assert ModifiedIds(s, b, a) == ModifiedIds(s, a, b);
    assert Ids(w.modified) == Ids(z.modified);
    forall i | 0 <= i < |w.modified| ensures IsModification(s, b, a, w.modified[i]) {
      var m := z.modified[i];
      assert IsModification(s, a, b, m);
      assert ChangedSet(s.nfc, s.kind, b[m.id], a[m.id]) == ChangedSet(s.nfc, s.kind, a[m.id], b[m.id]);
    }
    SwappedTable(s, a, b, (a.Keys + b.Keys) * ChangedIds(s, a, b), z.hashes);
    assert ChangedIds(s, b, a) == ChangedIds(s, a, b);
  }

  lemma SwappedTable(s: Setting, a: Entities, b: Entities, ids: set<string>, t: map<string, (string, string)>)
    requires IsHashTable(s, a, b, ids, t)
    ensures IsHashTable(s, b, a, ids, map k | k in t :: (t[k].1, t[k].0))
  {
  }

  // ---- Editing the baseline by the diff ----

  // Drop the removed ids; take the comparison's version of the added and the modified ones.
  ghost function Edited(a: Entities, b: Entities, z: Zone): Entities {
    (a - (set id | id in z.removed)) + (map id | id in b && (id in z.added || id in Ids(z.modified)) :: b[id])
  }

  /** Editing the baseline by the diff gives exactly the comparison's ids and claims. */
  lemma EditingGivesTheComparison(s: Setting, a: Entities, b: Entities, z: Zone)
    requires Inputs(s, a, b) && NoCollisions(s, a, b) && IsZoneDiff(s, a, b, z)
    ensures Edited(a, b, z).Keys == b.Keys
    ensures forall id :: id in b ==> SameClaim(s.nfc, s.kind, Edited(a, b, z)[id], b[id])
  {
    var all := a.Keys + b.Keys;
    forall id | id in all
      ensures (id in z.added <==> id in b && id !in a) && (id in z.removed <==> id in a && id !in b)
      ensures id in Ids(z.modified) <==> id in a && id in b && !SameClaim(s.nfc, s.kind, a[id], b[id])
    {
      ModifiedIffClaimsDiffer(s, a, b, id);
      assert id in z.added <==> id in all * (b.Keys - a.Keys);
      assert id in z.removed <==> id in all * (a.Keys - b.Keys);
      assert id in Ids(z.modified) <==> id in all * ModifiedIds(s, a, b);
    }
    assert forall id :: id in Edited(a, b, z) <==> id in b;
  }
}
