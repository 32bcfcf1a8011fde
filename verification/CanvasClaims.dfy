/**
  What the diff compares: the claim of an entity, the keys it is filed under, sorted
  listings of ids, and the index of a list by id.

  A claim is the entity's fields that count, in a fixed order; its key is their
  canonical text.
*/
module CanvasClaims {
  import opened Wrappers
  import opened Utf8
  import opened JsonScan
  import opened CanonicalJson

  datatype Kind = Node | Edge | Evidence

  // An entity's fields that are present; an undefined field is not.
  type Entity = map<string, Value>

  function KindName(kind: Kind): string {
    match kind
    case Node => "node"
    case Edge => "edge"
    case Evidence => "evidence"
  }

  function ClaimFields(kind: Kind): seq<string> {
    match kind
    case Node => ["id", "type", "title", "body", "tags", "data"]
    case Edge => ["id", "type", "source", "target", "directed", "polarity", "confidence", "conditions", "note",
                  "experiment"]
    case Evidence => ["id", "sourceType", "sourceId", "title", "authors", "year", "doi", "url"]
  }

  function TrimSpace(s: string): string
    decreases |s|
  {
    if s == "" then ""
    else if IsSpace(s[0]) then TrimSpace(s[1..])
    else if IsSpace(s[|s| - 1]) then TrimSpace(s[..|s| - 1])
    else s
  }

  function NonEmpty(s: string): Option<string> {
    if TrimSpace(s) == "" then None else Some(TrimSpace(s))
  }

  function LocalId(e: Entity): Option<string> {
    if "id" in e && e["id"].Str? then NonEmpty(e["id"].s) else None
  }

  predicate AllSpace(s: string) {
    forall i :: 0 <= i < |s| ==> IsSpace(s[i])
  }

  // The characters of s from i to k, with nothing but white space before and behind them.
  predicate CutOut(s: string, x: string, i: int, k: int) {
    0 <= i <= k <= |s| && x == s[i..k] && AllSpace(s[..i]) && AllSpace(s[k..])
  }

  // The text between white space, which neither begins nor ends with any.
  ghost predicate TrimsTo(s: string, x: string) {
    x != "" && !IsSpace(x[0]) && !IsSpace(x[|x| - 1]) && exists i, k :: CutOut(s, x, i, k)
  }

  lemma CutBehindSpace(c: char, s: string, x: string, i: int, k: int)
    requires IsSpace(c) && CutOut(s, x, i, k)
    ensures CutOut([c] + s, x, i + 1, k + 1)
  {
    var whole := [c] + s;
    assert x == whole[i + 1..k + 1] && whole[..i + 1] == [c] + s[..i] && whole[k + 1..] == s[k..];
  }

  lemma CutBeforeSpace(s: string, c: char, x: string, i: int, k: int)
    requires IsSpace(c) && CutOut(s, x, i, k)
    ensures CutOut(s + [c], x, i, k)
  {
    var whole := s + [c];
    assert x == whole[i..k] && whole[..i] == s[..i] && whole[k..] == s[k..] + [c];
  }

  lemma SpaceInFront(c: char, s: string, x: string)
    requires IsSpace(c)
    ensures AllSpace([c] + s) <==> AllSpace(s)
    ensures TrimsTo(s, x) ==> TrimsTo([c] + s, x)
  {
    assert forall i :: 0 <= i < |s| ==> ([c] + s)[i + 1] == s[i];
    if TrimsTo(s, x) {
      var i, k :| CutOut(s, x, i, k);
      CutBehindSpace(c, s, x, i, k);
    }
  }

  lemma SpaceBehind(s: string, c: char, x: string)
    requires IsSpace(c)
    ensures AllSpace(s + [c]) <==> AllSpace(s)
    ensures TrimsTo(s, x) ==> TrimsTo(s + [c], x)
  {
    assert forall i :: 0 <= i < |s| ==> (s + [c])[i] == s[i];
    if TrimsTo(s, x) {
      var i, k :| CutOut(s, x, i, k);
      CutBeforeSpace(s, c, x, i, k);
    }
  }

  lemma SolidTrimsToItself(s: string)
    requires s != "" && !IsSpace(s[0]) && !IsSpace(s[|s| - 1])
    ensures !AllSpace(s) && TrimsTo(s, s)
  {
    assert CutOut(s, s, 0, |s|);
  }

  ghost predicate TrimsWell(s: string) {
    (TrimSpace(s) == "" <==> AllSpace(s)) && (TrimSpace(s) != "" ==> TrimsTo(s, TrimSpace(s)))
  }

  lemma TrimsWellInFront(c: char, s: string)
    requires IsSpace(c) && TrimsWell(s)
    ensures TrimsWell([c] + s)
  {
    assert ([c] + s)[1..] == s;
    SpaceInFront(c, s, TrimSpace(s));
  }

  lemma TrimsWellBehind(s: string, c: char)
    requires IsSpace(c) && s != "" && !IsSpace(s[0]) && TrimsWell(s)
    ensures TrimsWell(s + [c])
  {
    assert (s + [c])[..|s|] == s && (s + [c])[0] == s[0];
    SpaceBehind(s, c, TrimSpace(s));
  }

  lemma {:induction false} TrimmedIs(s: string)
    ensures TrimsWell(s)
    decreases |s|
  {
    if s == "" {
    } else if IsSpace(s[0]) {
      TrimmedIs(s[1..]);
      TrimsWellInFront(s[0], s[1..]);
      assert s == [s[0]] + s[1..];
    } else if IsSpace(s[|s| - 1]) {
      var n := |s| - 1;
      TrimmedIs(s[..n]);
      TrimsWellBehind(s[..n], s[n]);
      assert s == s[..n] + [s[n]];
    } else {
      SolidTrimsToItself(s);
    }
  }

  /** The id of an entity is its id text without the white space around it; blank texts and other values are none. */
  lemma LocalIdIs(e: Entity)
    ensures LocalId(e).Some? <==> "id" in e && e["id"].Str? && !AllSpace(e["id"].s)
    ensures LocalId(e).Some? ==> TrimsTo(e["id"].s, LocalId(e).value)
  {
    if "id" in e && e["id"].Str? { TrimmedIs(e["id"].s); }
  }

  // ---- Claims ----

  function Present(names: seq<string>, e: Entity): seq<Field> {
    if names == [] then []
    else
      var n := |names| - 1;
      Present(names[..n], e) + if names[n] in e then [Field(names[n], e[names[n]])] else []
  }

  function ClaimOf(kind: Kind, e: Entity): Value {
    Obj(Present(ClaimFields(kind), e))
  }

  function ClaimKey(nfc: string -> string, kind: Kind, e: Entity): string {
    KindName(kind) + ":" + Canonicalize(nfc, ClaimOf(kind, e))
  }

  ghost predicate WellFormedEntity(e: Entity) {
    forall f :: f in e ==> WellFormed(e[f])
  }

  // Normalisation leaves the ASCII names of the claim fields alone.
  ghost predicate KeepsFieldNames(nfc: string -> string) {
    forall kind, i :: 0 <= i < |ClaimFields(kind)| ==> nfc(ClaimFields(kind)[i]) == ClaimFields(kind)[i]
  }

  // Which claim fields two versions of an entity carry.
  ghost predicate SameFields(kind: Kind, a: Entity, b: Entity) {
    forall f :: f in ClaimFields(kind) ==> (f in a <==> f in b)
  }

  ghost predicate SameClaim(nfc: string -> string, kind: Kind, a: Entity, b: Entity) {
    SameFields(kind, a, b) &&
    forall f :: f in ClaimFields(kind) && f in a && f in b ==> MeaningOf(nfc, a[f]) == MeaningOf(nfc, b[f])
  }

  lemma {:induction false} PresentIsWellFormed(names: seq<string>, e: Entity)
    requires WellFormedEntity(e)
    ensures forall i :: 0 <= i < |Present(names, e)| ==> WellFormed(Present(names, e)[i].value)
  {
    if names != [] { PresentIsWellFormed(names[..|names| - 1], e); }
  }

  lemma {:induction false} ClaimIndex(nfc: string -> string, names: seq<string>, e: Entity)
    requires forall i :: 0 <= i < |names| ==> nfc(names[i]) == names[i]
    ensures var fields, last := Present(names, e), LastWins(nfc, Present(names, e));
            (forall f :: f in last <==> f in names && f in e) &&
            (forall f :: f in last ==> fields[last[f]].value == e[f])
  {
    if names != [] {
      var n := |names| - 1;
      ClaimIndex(nfc, names[..n], e);
      assert names == names[..n] + [names[n]];
      var fields := Present(names, e);
      if names[n] in e {
        assert fields[..|fields| - 1] == Present(names[..n], e);
      } else {
        assert fields == Present(names[..n], e);
      }
    }
  }

  /** Claim keys are equal exactly when the claims carry the same fields with the same meanings. */
  lemma ClaimKeysIff(nfc: string -> string, kind: Kind, a: Entity, b: Entity)
    requires KeepsFieldNames(nfc) && WellFormedEntity(a) && WellFormedEntity(b)
    ensures ClaimKey(nfc, kind, a) == ClaimKey(nfc, kind, b) <==> SameClaim(nfc, kind, a, b)
  {
    var names := ClaimFields(kind);
    var u, v := ClaimOf(kind, a), ClaimOf(kind, b);
    PresentIsWellFormed(names, a);
    PresentIsWellFormed(names, b);
    CanonicalTextIffSameMeaning(nfc, u, v);
    assert ClaimKey(nfc, kind, a)[|KindName(kind)| + 1..] == Canonicalize(nfc, u);
    assert ClaimKey(nfc, kind, b)[|KindName(kind)| + 1..] == Canonicalize(nfc, v);
    ClaimMeaningsIff(nfc, kind, a, b);
  }

  ghost predicate AgreeOn(nfc: string -> string, fields: set<string>, a: Entity, b: Entity) {
    forall f :: f in fields ==> (f in a <==> f in b) && (f in a ==> MeaningOf(nfc, a[f]) == MeaningOf(nfc, b[f]))
  }

  /** What counts: six fields of a node, ten of an edge, eight of a piece of evidence, and nothing else. */
  lemma ClaimKeysByKind(nfc: string -> string, kind: Kind, a: Entity, b: Entity)
    requires KeepsFieldNames(nfc) && WellFormedEntity(a) && WellFormedEntity(b)
    ensures ClaimKey(nfc, kind, a) == ClaimKey(nfc, kind, b) <==>
            AgreeOn(nfc, match kind
                         case Node => {"id", "type", "title", "body", "tags", "data"}
                         case Edge => {"id", "type", "source", "target", "directed", "polarity", "confidence",
                                       "conditions", "note", "experiment"}
                         case Evidence => {"id", "sourceType", "sourceId", "title", "authors", "year", "doi", "url"},
                    a, b)
  {
    ClaimKeysIff(nfc, kind, a, b);
  }

  lemma ClaimMeaning(nfc: string -> string, kind: Kind, e: Entity)
    requires KeepsFieldNames(nfc)
    ensures var m := MeaningOf(nfc, ClaimOf(kind, e));
            m.MObj? &&
            (forall f :: f in m.fields <==> f in ClaimFields(kind) && f in e) &&
            forall f :: f in m.fields ==> m.fields[f] == MeaningOf(nfc, e[f])
  {
    var names := ClaimFields(kind);
    ClaimIndex(nfc, names, e);
    var fields := Present(names, e);
    var last := LastWins(nfc, fields);
    ObjMeaning(nfc, fields);
    var m := MeaningOf(nfc, Obj(fields));
    forall f | f in m.fields ensures m.fields[f] == MeaningOf(nfc, e[f]) {
      assert fields[last[f]].value == e[f];
    }
  }

  lemma ClaimMeaningsIff(nfc: string -> string, kind: Kind, a: Entity, b: Entity)
    requires KeepsFieldNames(nfc)
    ensures MeaningOf(nfc, ClaimOf(kind, a)) == MeaningOf(nfc, ClaimOf(kind, b)) <==> SameClaim(nfc, kind, a, b)
  {
    ClaimMeaning(nfc, kind, a);
    ClaimMeaning(nfc, kind, b);
    SameClaimIff(nfc, ClaimFields(kind), kind, a, b,
                 MeaningOf(nfc, ClaimOf(kind, a)).fields, MeaningOf(nfc, ClaimOf(kind, b)).fields);
  }

  lemma SameClaimIff(nfc: string -> string, names: seq<string>, kind: Kind, a: Entity, b: Entity,
                     ma: map<string, Meaning>, mb: map<string, Meaning>)
    requires names == ClaimFields(kind)
    requires forall f :: f in ma <==> f in names && f in a
    requires forall f :: f in mb <==> f in names && f in b
    requires forall f :: f in ma ==> ma[f] == MeaningOf(nfc, a[f])
    requires forall f :: f in mb ==> mb[f] == MeaningOf(nfc, b[f])
    ensures ma == mb <==> SameClaim(nfc, kind, a, b)
  {
    if SameClaim(nfc, kind, a, b) {
      assert forall f :: f in ma ==> f in mb && ma[f] == mb[f];
      assert forall f :: f in mb ==> f in ma;
    }
    if ma == mb {
      forall f | f in names ensures f in a <==> f in b {
        assert f in ma <==> f in mb;
      }
      forall f | f in names && f in a && f in b ensures MeaningOf(nfc, a[f]) == MeaningOf(nfc, b[f]) {
        assert f in ma;
      }
    }
  }

  // ---- Entity keys ----

  function EntityKey(documentId: string, kind: Kind, localId: string): string {
    "[" + Join([Quote(documentId), Quote(KindName(kind)), Quote(localId)]) + "]"
  }

  /** The tuple encoding is unambiguous, whatever the ids contain. */
  lemma EntityKeyInjective(d: string, kind: Kind, id: string, d': string, kind': Kind, id': string)
    requires EntityKey(d, kind, id) == EntityKey(d', kind', id')
    ensures d == d' && kind == kind' && id == id'
  {
    var a := [Quote(d), Quote(KindName(kind)), Quote(id)];
    var b := [Quote(d'), Quote(KindName(kind')), Quote(id')];
    Unwrap("[", Join(a), "]");
    Unwrap("[", Join(b), "]");
    QuotedItems(d, KindName(kind), id);
    QuotedItems(d', KindName(kind'), id');
    JoinReadable(a, "]", b, "]", {',', ']'});
    assert a[0] == b[0] && a[1] == b[1] && a[2] == b[2];
    QuoteInjective(d, d');
    QuoteInjective(KindName(kind), KindName(kind'));
    QuoteInjective(id, id');
    assert |KindName(Node)| == 4 && |KindName(Edge)| == 4 && |KindName(Evidence)| == 8;
    assert KindName(Node)[0] == 'n' && KindName(Edge)[0] == 'e';
  }

  lemma QuotePasses(x: string)
    ensures Quote(x) != "" && Quote(x)[0] == '"' && Passes(Both, 0, Quote(x), {',', ']'})
  {
    QuoteIsString(x);
    StringPasses(Both, 0, Quote(x), {',', ']'});
  }

  lemma QuotedItems(x: string, y: string, z: string)
    ensures CleanItems([Quote(x), Quote(y), Quote(z)], {',', ']'})
  {
    QuotePasses(x);
    QuotePasses(y);
    QuotePasses(z);
    CleanThree(Quote(x), Quote(y), Quote(z), {',', ']'});
  }

  lemma CleanThree(a: string, b: string, c: string, stops: set<char>)
    requires forall t :: t in [a, b, c] ==> t != "" && t[0] !in stops && Passes(Both, 0, t, stops)
    ensures CleanItems([a, b, c], stops)
  {
  }

  // ---- Sorted listings ----

  ghost predicate StrictlySorted(s: seq<string>) {
    forall i, j :: 0 <= i < j < |s| ==> StrBefore(s[i], s[j])
  }

  ghost predicate Lists(s: seq<string>, ids: set<string>) {
    StrictlySorted(s) && forall x :: x in s <==> x in ids
  }

  lemma SortedDistinct(s: seq<string>)
    requires StrictlySorted(s)
    ensures Sorted(s) && forall i, j :: 0 <= i < j < |s| ==> s[i] != s[j]
  {
    forall i, j | 0 <= i < j < |s| ensures s[i] != s[j] && !StrBefore(s[j], s[i]) {
      StrBeforeIsTotal(s[i], s[j]);
    }
  }

  /** A set has one sorted listing. */
  lemma ListsUnique(s: seq<string>, t: seq<string>, ids: set<string>)
    requires Lists(s, ids) && Lists(t, ids)
    ensures s == t
  {
    SortedDistinct(s);
    SortedDistinct(t);
    forall x ensures multiset(s)[x] == multiset(t)[x] {
      DistinctOnce(s, x);
      DistinctOnce(t, x);
    }
    SortedUnique(s, t);
  }

  lemma {:induction false} ListLength(s: seq<string>, ids: set<string>)
    requires Lists(s, ids)
    ensures |s| == |ids|
  {
    if s == [] {
      assert ids == {};
    } else {
      var n := |s| - 1;
      SortedDistinct(s);
      assert s == s[..n] + [s[n]];
      assert Lists(s[..n], ids - {s[n]});
      ListLength(s[..n], ids - {s[n]});
    }
  }

  lemma ListAppend(s: seq<string>, ids: set<string>, x: string)
    requires Lists(s, ids) && forall y :: y in ids ==> StrBefore(y, x)
    ensures Lists(s + [x], ids + {x})
  {
    forall i, j | 0 <= i < j < |s| + 1 ensures StrBefore((s + [x])[i], (s + [x])[j]) {
      if j == |s| { assert s[i] in ids; }
    }
  }

  method SortedIds(ids: set<string>) returns (r: seq<string>)
    ensures Lists(r, ids)
  {
    var rest, found: seq<string> := ids, [];
    while rest != {}
      invariant forall x :: x in ids <==> x in rest || x in found
      invariant forall x :: x in found ==> x !in rest
      invariant forall i, j :: 0 <= i < j < |found| ==> found[i] != found[j]
      decreases rest
    {
      var x :| x in rest;
      rest, found := rest - {x}, found + [x];
    }
    r := Sort(found);
    SortIsStrict(found);
  }

  lemma SortIsStrict(s: seq<string>)
    requires forall i, j :: 0 <= i < j < |s| ==> s[i] != s[j]
    ensures StrictlySorted(Sort(s)) && forall x :: x in Sort(s) <==> x in s
  {
    SortSorts(s);
    SortedElements(s);
    var r := Sort(s);
    forall i, j | 0 <= i < j < |r| ensures StrBefore(r[i], r[j]) {
      StrBeforeIsTotal(r[i], r[j]);
      if r[i] == r[j] {
        DistinctOnce(s, r[i]);
        TwiceCounted(r, i, j);
        assert false;
      }
    }
  }

  lemma TwiceCounted<T>(s: seq<T>, i: nat, j: nat)
    requires i < j < |s| && s[i] == s[j]
    ensures multiset(s)[s[i]] >= 2
  {
    assert s == s[..j] + [s[j]] + s[j + 1..];
    assert s[..j][i] == s[i];
    assert s[..j][i] in multiset(s[..j]);
  }

  // ---- Indexing ----

  datatype IndexError = MissingId | DuplicateId(id: string)

  // An item and its trimmed id, None when it has no non-blank text id.
  datatype Tagged<+T> = Tagged(id: Option<string>, item: T)

  function TagEntities(entities: seq<Entity>): (r: seq<Tagged<Entity>>)
    ensures |r| == |entities| && forall i :: 0 <= i < |r| ==> r[i] == Tagged(LocalId(entities[i]), entities[i])
  {
    seq(|entities|, i requires 0 <= i < |entities| => Tagged(LocalId(entities[i]), entities[i]))
  }

  ghost predicate CanIndex<T>(items: seq<Tagged<T>>) {
    (forall i :: 0 <= i < |items| ==> items[i].id.Some?) &&
    forall i, j :: 0 <= i < j < |items| ==> items[i].id != items[j].id
  }

  function IndexOf<T>(items: seq<Tagged<T>>): map<string, T> {
    if items == [] then map[]
    else
      var n := |items| - 1;
      var m := IndexOf(items[..n]);
      match items[n].id
      case Some(id) => m[id := items[n].item]
      case None => m
  }

  lemma {:induction false} IndexKeys<T>(items: seq<Tagged<T>>)
    ensures forall i :: 0 <= i < |items| && items[i].id.Some? ==> items[i].id.value in IndexOf(items)
    ensures forall k :: k in IndexOf(items) ==> exists i :: 0 <= i < |items| && items[i].id == Some(k)
  {
    if items != [] {
      var n := |items| - 1;
      IndexKeys(items[..n]);
      forall i | 0 <= i < |items| && items[i].id.Some? ensures items[i].id.value in IndexOf(items) {
        if i < n { assert items[..n][i] == items[i]; }
      }
      forall k | k in IndexOf(items) ensures exists i :: 0 <= i < |items| && items[i].id == Some(k) {
        if items[n].id != Some(k) {
          var i :| 0 <= i < n && items[..n][i].id == Some(k);
          assert items[i].id == Some(k);
        }
      }
    }
  }

  /** A list that can be indexed has every item, and only its items, under the item's id. */
  lemma {:induction false} IndexedByIdIff<T>(items: seq<Tagged<T>>, k: string, item: T)
    requires CanIndex(items)
    ensures (k in IndexOf(items) && IndexOf(items)[k] == item) <==> Tagged(Some(k), item) in items
  {
    if items != [] {
      var n := |items| - 1;
      IndexedByIdIff(items[..n], k, item);
      IndexKeys(items[..n]);
      assert items == items[..n] + [items[n]];
      if items[n].id == Some(k) {
        assert forall i :: 0 <= i < n ==> items[i].id != Some(k);
        assert Tagged(Some(k), item) in items <==> items[n].item == item;
      }
    }
  }

  method Index<T>(items: seq<Tagged<T>>) returns (r: Result<map<string, T>, IndexError>)
    ensures r.Ok? <==> CanIndex(items)
    ensures r.Ok? ==> r.value == IndexOf(items)
  {
    var m: map<string, T> := map[];
    for i := 0 to |items|
      invariant CanIndex(items[..i]) && m == IndexOf(items[..i])
    {
      IndexKeys(items[..i]);
      if items[i].id.None? { return Err(MissingId); }
      var id := items[i].id.value;
      if id in m {
        assert exists j :: 0 <= j < i && items[j].id == items[i].id by {
          var j :| 0 <= j < i && items[..i][j].id == Some(id);
          assert items[j].id == items[i].id;
        }
        return Err(DuplicateId(id));
      }
      m := m[id := items[i].item];
      assert items[..i + 1][..i] == items[..i];
      OneMore(items, i);
    }
    assert items[..|items|] == items;
    return Ok(m);
  }

  lemma OneMore<T>(items: seq<Tagged<T>>, i: nat)
    requires i < |items| && CanIndex(items[..i]) && items[i].id.Some? && items[i].id.value !in IndexOf(items[..i])
    ensures CanIndex(items[..i + 1])
  {
    IndexKeys(items[..i]);
    forall j | 0 <= j < i ensures items[j].id != items[i].id && items[j].id.Some? {
      assert items[..i][j] == items[j];
    }
    forall p, q | 0 <= p < q < i ensures items[p].id != items[q].id {
      assert items[..i][p].id != items[..i][q].id;
    }
  }

  lemma SameElements<T>(s: seq<T>, t: seq<T>)
    requires multiset(s) == multiset(t)
    ensures forall x :: x in s <==> x in t
  {
    forall x ensures x in s <==> x in t {
      assert x in s <==> x in multiset(s);
      assert x in t <==> x in multiset(t);
    }
  }

  lemma IndexedOnce<T>(s: seq<Tagged<T>>, e: Tagged<T>)
    requires CanIndex(s)
    ensures multiset(s)[e] <= 1
  {
    forall i, j | 0 <= i < j < |s| ensures s[i] != s[j] {
      assert s[i].id != s[j].id;
    }
    DistinctOnce(s, e);
  }

  lemma StillIndexable<T>(s: seq<Tagged<T>>, t: seq<Tagged<T>>)
    requires CanIndex(s) && multiset(s) == multiset(t)
    ensures CanIndex(t)
  {
    SameElements(s, t);
    forall i | 0 <= i < |t| ensures t[i].id.Some? { assert t[i] in s; }
    forall i, j | 0 <= i < j < |t| ensures t[i].id != t[j].id {
      if t[i].id == t[j].id {
        assert t[i] in s && t[j] in s;
        assert t[i] == t[j];
        TwiceCounted(t, i, j);
        IndexedOnce(s, t[i]);
        assert false;
      }
    }
  }

  /** The index does not depend on the order of the list, nor does its failing. */
  lemma IndexIgnoresOrder<T>(s: seq<Tagged<T>>, t: seq<Tagged<T>>)
    requires multiset(s) == multiset(t)
    ensures CanIndex(s) <==> CanIndex(t)
    ensures CanIndex(s) ==> IndexOf(s) == IndexOf(t)
  {
    if CanIndex(s) { StillIndexable(s, t); }
    if CanIndex(t) { StillIndexable(t, s); }
    if CanIndex(s) {
      SameElements(s, t);
      var a, b := IndexOf(s), IndexOf(t);
      forall k | k in a ensures k in b && b[k] == a[k] {
        IndexedByIdIff(s, k, a[k]);
        IndexedByIdIff(t, k, a[k]);
      }
      forall k | k in b ensures k in a {
        IndexedByIdIff(t, k, b[k]);
        IndexedByIdIff(s, k, b[k]);
      }
      assert a.Keys == b.Keys;
    }
  }

  lemma TagsIgnoreOrder(s: seq<Entity>, t: seq<Entity>)
    requires multiset(s) == multiset(t)
    ensures multiset(TagEntities(s)) == multiset(TagEntities(t))
  {
    assert |s| == |multiset(s)| == |multiset(t)| == |t|;
    BagTransfer(s, t, TagEntities(s), TagEntities(t));
  }
}
