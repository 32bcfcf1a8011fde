/**
  Where a document came from: its provenance, normalised when its group files it and
  again when it is reported.

  The baseline's is reported too if the two say different things, which is decided on
  their canonical texts; those are equal exactly when the fields say the same.
*/
module CanvasProvenance {
  import opened Wrappers
  import opened Utf8
  import opened CanonicalJson
  import opened CanvasClaims

  const DEFAULT_ORIGIN: string := "import"

  // Text fields that are kept unless they are empty.
  const TEXT_FIELDS: seq<string> := [
    "actorId", "modelId", "promptVersion", "reviewedBy", "reviewedAt", "fileName", "sourcePath"]

  // All fields, in the order in which they are set.
  const PROVENANCE_FIELDS: seq<string> := [
    "documentId", "origin", "actorId", "modelId", "promptVersion", "reviewedBy", "reviewedAt", "sourceRefs",
    "fileName", "sourcePath"]

  // Provenance as an input gives it; an absent field is None or not in the map.
  datatype Given = Given(origin: Option<string>, texts: map<string, string>, sourceRefs: Option<seq<string>>)

  datatype Provenance = Provenance(
    documentId: string, origin: string, texts: map<string, string>, sourceRefs: Option<seq<string>>)

  function KeptTexts(texts: map<string, string>): map<string, string> {
    map f | f in texts && f in TEXT_FIELDS && texts[f] != "" :: texts[f]
  }

  // The document id is the one the document is filed under, whatever was given.
  function Normalized(documentId: string, given: Option<Given>): (p: Provenance)
    ensures forall f :: f in p.texts ==> f in TEXT_FIELDS && p.texts[f] != ""
  {
    match given
    case None => Provenance(documentId, DEFAULT_ORIGIN, map[], None)
    case Some(g) =>
      Provenance(documentId, g.origin.GetOr(DEFAULT_ORIGIN), KeptTexts(g.texts),
                 if g.sourceRefs.Some? then Some(Sort(g.sourceRefs.value)) else None)
  }

  /**
    What normalising keeps: the origin or else "import", the seven texts unless empty, the references in byte order.
  */
  lemma NormalizedIs(documentId: string, given: Option<Given>)
    ensures var p := Normalized(documentId, given);
            p.documentId == documentId &&
            (given.None? ==> p == Provenance(documentId, "import", map[], None)) &&
            (given.Some? ==>
              p.origin == given.value.origin.GetOr("import") &&
              (forall f :: f in p.texts <==>
                 f in given.value.texts && given.value.texts[f] != "" &&
                 f in {"actorId", "modelId", "promptVersion", "reviewedBy", "reviewedAt", "fileName", "sourcePath"}) &&
              (forall f :: f in p.texts ==> p.texts[f] == given.value.texts[f]) &&
              (given.value.sourceRefs.None? <==> p.sourceRefs.None?) &&
              (p.sourceRefs.Some? ==>
                Sorted(p.sourceRefs.value) && multiset(p.sourceRefs.value) == multiset(given.value.sourceRefs.value)))
  {
    if given.Some? && given.value.sourceRefs.Some? { SortSorts(given.value.sourceRefs.value); }
    assert forall f :: f in TEXT_FIELDS <==>
      f in {"actorId", "modelId", "promptVersion", "reviewedBy", "reviewedAt", "fileName", "sourcePath"}
    by { TextFields(); }
  }

  lemma TextFields()
    ensures forall f :: f in TEXT_FIELDS <==>
              f in {"actorId", "modelId", "promptVersion", "reviewedBy", "reviewedAt", "fileName", "sourcePath"}
  {
    assert TEXT_FIELDS[0] == "actorId" && TEXT_FIELDS[1] == "modelId" && TEXT_FIELDS[2] == "promptVersion" &&
           TEXT_FIELDS[3] == "reviewedBy" && TEXT_FIELDS[4] == "reviewedAt" && TEXT_FIELDS[5] == "fileName" &&
           TEXT_FIELDS[6] == "sourcePath";
  }

  function AsGiven(p: Provenance): Given {
    Given(Some(p.origin), p.texts, p.sourceRefs)
  }

  /** Normalising twice is normalising once. */
  lemma NormalizedTwice(documentId: string, given: Option<Given>)
    ensures Normalized(documentId, Some(AsGiven(Normalized(documentId, given)))) == Normalized(documentId, given)
  {
    var p := Normalized(documentId, given);
    assert KeptTexts(p.texts) == p.texts;
    if given.Some? && given.value.sourceRefs.Some? {
      SortSorts(given.value.sourceRefs.value);
      SortIsCanonical(Sort(given.value.sourceRefs.value), given.value.sourceRefs.value);
    }
  }

  // The same provenance but for the order of its references.
  predicate SameGiven(g: Option<Given>, h: Option<Given>) {
    match (g, h)
    case (None, None) => true
    case (Some(a), Some(b)) =>
      a.origin == b.origin && a.texts == b.texts &&
      (match (a.sourceRefs, b.sourceRefs)
       case (None, None) => true
       case (Some(s), Some(t)) => multiset(s) == multiset(t)
       case _ => false)
    case _ => false
  }

  lemma NormalizedIgnoresOrder(documentId: string, g: Option<Given>, h: Option<Given>)
    requires SameGiven(g, h)
    ensures Normalized(documentId, g) == Normalized(documentId, h)
  {
    if g.Some? && g.value.sourceRefs.Some? {
      SortIsCanonical(g.value.sourceRefs.value, h.value.sourceRefs.value);
    }
  }

  // ---- Comparing two ----

  function RefValues(refs: seq<string>): (r: seq<Value>)
    ensures |r| == |refs| && forall i :: 0 <= i < |r| ==> r[i] == Str(refs[i])
  {
    seq(|refs|, i requires 0 <= i < |refs| => Str(refs[i]))
  }

  function AsEntity(p: Provenance): Entity {
    (map f | f in p.texts && f in TEXT_FIELDS :: Str(p.texts[f])) +
    map["documentId" := Str(p.documentId), "origin" := Str(p.origin)] +
    if p.sourceRefs.Some? then map["sourceRefs" := Arr(RefValues(p.sourceRefs.value))] else map[]
  }

  function ProvenanceText(nfc: string -> string, p: Provenance): string {
    Canonicalize(nfc, Obj(Present(PROVENANCE_FIELDS, AsEntity(p))))
  }

  ghost predicate KeepsProvenanceNames(nfc: string -> string) {
    forall i :: 0 <= i < |PROVENANCE_FIELDS| ==> nfc(PROVENANCE_FIELDS[i]) == PROVENANCE_FIELDS[i]
  }

  function Folded(nfc: string -> string, s: string): seq<string> {
    Words(nfc(s))
  }

  function FoldedRefs(nfc: string -> string, refs: seq<string>): (r: seq<seq<string>>)
    ensures |r| == |refs|
  {
    seq(|refs|, i requires 0 <= i < |refs| => Folded(nfc, refs[i]))
  }

  // The same fields, with the same words in each, and the same references in any order.
  predicate SayTheSame(nfc: string -> string, p: Provenance, q: Provenance) {
    Folded(nfc, p.documentId) == Folded(nfc, q.documentId) && Folded(nfc, p.origin) == Folded(nfc, q.origin) &&
    p.texts.Keys == q.texts.Keys &&
    (forall f :: f in p.texts && f in q.texts ==> Folded(nfc, p.texts[f]) == Folded(nfc, q.texts[f])) &&
    match (p.sourceRefs, q.sourceRefs)
    case (None, None) => true
    case (Some(s), Some(t)) => multiset(FoldedRefs(nfc, s)) == multiset(FoldedRefs(nfc, t))
    case _ => false
  }

  // ---- The references as a multiset ----

  function Wrapped(words: seq<seq<string>>): (r: seq<Meaning>)
    ensures |r| == |words| && forall i :: 0 <= i < |r| ==> r[i] == MStr(words[i])
  {
    seq(|words|, i requires 0 <= i < |words| => MStr(words[i]))
  }

  lemma CountBoth<T, U>(a: seq<T>, x: T, s: seq<T>, y: T, b: seq<U>, u: U, t: seq<U>, v: U)
    requires a == [x] + s && b == [u] + t && (x == y <==> u == v) && multiset(s)[y] == multiset(t)[v]
    ensures multiset(a)[y] == multiset(b)[v]
  {
  }

  lemma HeadAndTail<T>(s: seq<T>)
    requires s != []
    ensures s == [s[0]] + s[1..]
  {
  }

  lemma WrappedSplit(words: seq<seq<string>>)
    requires words != []
    ensures Wrapped(words) == [MStr(words[0])] + Wrapped(words[1..])
  {
  }

  lemma WrappedNone(w: seq<string>)
    ensures multiset(Wrapped([]))[MStr(w)] == 0
  {
    assert Wrapped([]) == [];
  }

  lemma WrappedOneMore(words: seq<seq<string>>, w: seq<string>)
    requires words != [] && multiset(Wrapped(words[1..]))[MStr(w)] == multiset(words[1..])[w]
    ensures multiset(Wrapped(words))[MStr(w)] == multiset(words)[w]
  {
    WrappedSplit(words);
    HeadAndTail(words);
    CountBoth(words, words[0], words[1..], w, Wrapped(words), MStr(words[0]), Wrapped(words[1..]), MStr(w));
  }

  lemma {:induction false} WrappedCount(words: seq<seq<string>>, w: seq<string>)
    ensures multiset(Wrapped(words))[MStr(w)] == multiset(words)[w]
  {
    if words == [] {
      WrappedNone(w);
    } else {
      WrappedCount(words[1..], w);
      WrappedOneMore(words, w);
    }
  }

  lemma WrappedIff(s: seq<seq<string>>, t: seq<seq<string>>)
    ensures multiset(Wrapped(s)) == multiset(Wrapped(t)) <==> multiset(s) == multiset(t)
  {
    forall w
      ensures multiset(Wrapped(s))[MStr(w)] == multiset(s)[w] && multiset(Wrapped(t))[MStr(w)] == multiset(t)[w]
    {
      WrappedCount(s, w);
      WrappedCount(t, w);
    }
    if multiset(Wrapped(s)) == multiset(Wrapped(t)) {
      forall w ensures multiset(s)[w] == multiset(t)[w] {
        assert multiset(Wrapped(s))[MStr(w)] == multiset(Wrapped(t))[MStr(w)];
      }
    }
    if multiset(s) == multiset(t) {
      forall m ensures multiset(Wrapped(s))[m] == multiset(Wrapped(t))[m] {
        if m.MStr? {
          assert multiset(s)[m.words] == multiset(t)[m.words];
        } else {
          OnlyTexts(s, m);
          OnlyTexts(t, m);
        }
      }
    }
  }

  lemma OnlyTexts(words: seq<seq<string>>, m: Meaning)
    requires !m.MStr?
    ensures multiset(Wrapped(words))[m] == 0
  {
    assert m !in Wrapped(words);
  }

  lemma RefsMeaning(nfc: string -> string, refs: seq<string>)
    ensures MeaningOf(nfc, Arr(RefValues(refs))) == MArr(multiset(Wrapped(FoldedRefs(nfc, refs))))
  {
    var items := RefValues(refs);
    assert seq(|items|, i requires 0 <= i < |items| => MeaningOf(nfc, items[i])) == Wrapped(FoldedRefs(nfc, refs));
  }

  lemma SameRefsIff(nfc: string -> string, s: seq<string>, t: seq<string>)
    ensures MeaningOf(nfc, Arr(RefValues(s))) == MeaningOf(nfc, Arr(RefValues(t))) <==>
            multiset(FoldedRefs(nfc, s)) == multiset(FoldedRefs(nfc, t))
  {
    RefsMeaning(nfc, s);
    RefsMeaning(nfc, t);
    WrappedIff(FoldedRefs(nfc, s), FoldedRefs(nfc, t));
  }

  // ---- Field by field ----

  // What the whole record means: one meaning for every field that is there.
  ghost predicate Meant(nfc: string -> string, e: Entity, m: Meaning) {
    m.MObj? && (forall f :: f in m.fields <==> f in PROVENANCE_FIELDS && f in e) &&
    forall f :: f in m.fields ==> m.fields[f] == MeaningOf(nfc, e[f])
  }

  lemma EntityMeant(nfc: string -> string, e: Entity)
    requires KeepsProvenanceNames(nfc)
    ensures Meant(nfc, e, MeaningOf(nfc, Obj(Present(PROVENANCE_FIELDS, e))))
  {
    ClaimIndex(nfc, PROVENANCE_FIELDS, e);
    var fields := Present(PROVENANCE_FIELDS, e);
    var last := LastWins(nfc, fields);
    ObjMeaning(nfc, fields);
    var m := MeaningOf(nfc, Obj(fields));
    forall f | f in m.fields ensures m.fields[f] == MeaningOf(nfc, e[f]) {
      assert fields[last[f]].value == e[f];
    }
  }

  lemma KeysOf(p: Provenance)
    ensures var e := AsEntity(p);
            (forall f :: f in e <==> (f in p.texts && f in TEXT_FIELDS) || f == "documentId" || f == "origin" ||
                                     (f == "sourceRefs" && p.sourceRefs.Some?)) &&
            (forall f :: f in e ==> f in PROVENANCE_FIELDS) &&
            e["documentId"] == Str(p.documentId) && e["origin"] == Str(p.origin) &&
            (p.sourceRefs.Some? ==> e["sourceRefs"] == Arr(RefValues(p.sourceRefs.value))) &&
            forall f :: f in p.texts && f in TEXT_FIELDS ==> e[f] == Str(p.texts[f])
  {
    NamesApart();
  }

  lemma NamesApart()
    ensures "documentId" !in TEXT_FIELDS && "origin" !in TEXT_FIELDS && "sourceRefs" !in TEXT_FIELDS
    ensures forall f :: f in PROVENANCE_FIELDS <==>
            f in TEXT_FIELDS || f == "documentId" || f == "origin" || f == "sourceRefs"
  {
    assert |"documentId"| == 10 && |"origin"| == 6 && |"sourceRefs"| == 10;
    assert |"actorId"| == 7 && |"modelId"| == 7 && |"promptVersion"| == 13 && |"reviewedBy"| == 10;
    assert |"reviewedAt"| == 10 && |"fileName"| == 8 && |"sourcePath"| == 10;
    assert "documentId"[0] == 'd' && "reviewedBy"[0] == 'r' && "reviewedAt"[0] == 'r';
    assert "sourcePath"[6] == 'P' && "sourceRefs"[6] == 'R' && "sourcePath"[0] == 's';
  }

  lemma SameEntityIff(nfc: string -> string, a: Entity, b: Entity, ma: Meaning, mb: Meaning)
    requires Meant(nfc, a, ma) && Meant(nfc, b, mb)
    requires a.Keys <= (set f | f in PROVENANCE_FIELDS) && b.Keys <= (set f | f in PROVENANCE_FIELDS)
    ensures ma == mb <==>
            a.Keys == b.Keys && forall f :: f in a && f in b ==> MeaningOf(nfc, a[f]) == MeaningOf(nfc, b[f])
  {
    assert ma.fields.Keys == a.Keys && mb.fields.Keys == b.Keys;
    if a.Keys == b.Keys && forall f :: f in a && f in b ==> MeaningOf(nfc, a[f]) == MeaningOf(nfc, b[f]) {
      assert ma.fields == mb.fields;
    }
    if ma == mb {
      forall f | f in a && f in b ensures MeaningOf(nfc, a[f]) == MeaningOf(nfc, b[f]) { assert f in ma.fields; }
    }
  }

  // The record p as the entity e, its three fields that are no texts called id, origin and refs.
  ghost predicate Holds(p: Provenance, e: Entity, id: string, origin: string, refs: string) {
    e.Keys == p.texts.Keys + {id, origin} + (if p.sourceRefs.Some? then {refs} else {}) &&
    id !in p.texts && origin !in p.texts && refs !in p.texts && id != origin && id != refs && origin != refs &&
    e[id] == Str(p.documentId) && e[origin] == Str(p.origin) &&
    (p.sourceRefs.Some? ==> e[refs] == Arr(RefValues(p.sourceRefs.value))) &&
    forall f :: f in p.texts ==> e[f] == Str(p.texts[f])
  }

  lemma RecordHolds(p: Provenance)
    requires forall f :: f in p.texts ==> f in TEXT_FIELDS
    ensures Holds(p, AsEntity(p), "documentId", "origin", "sourceRefs")
    ensures AsEntity(p).Keys <= set f | f in PROVENANCE_FIELDS
  {
    KeysOf(p);
    NamesApart();
    var e := AsEntity(p);
    forall f ensures f in e.Keys <==> f in p.texts.Keys || f == "documentId" || f == "origin" ||
                                      (f == "sourceRefs" && p.sourceRefs.Some?)
    {
      assert f in e <==> f in e.Keys;
    }
  }

  lemma SameKeysIff(p: Provenance, q: Provenance, a: Entity, b: Entity, id: string, origin: string, refs: string)
    requires Holds(p, a, id, origin, refs) && Holds(q, b, id, origin, refs)
    ensures a.Keys == b.Keys <==> p.texts.Keys == q.texts.Keys && p.sourceRefs.Some? == q.sourceRefs.Some?
  {
    assert p.texts.Keys == a.Keys - {id, origin, refs} && q.texts.Keys == b.Keys - {id, origin, refs};
    assert (refs in a.Keys <==> p.sourceRefs.Some?) && (refs in b.Keys <==> q.sourceRefs.Some?);
  }

  lemma SameFieldsIff(nfc: string -> string, p: Provenance, q: Provenance, a: Entity, b: Entity,
                      id: string, origin: string, refs: string)
    requires Holds(p, a, id, origin, refs) && Holds(q, b, id, origin, refs)
    ensures (a.Keys == b.Keys && forall f :: f in a && f in b ==> MeaningOf(nfc, a[f]) == MeaningOf(nfc, b[f])) <==>
            SayTheSame(nfc, p, q)
  {
    SameKeysIff(p, q, a, b, id, origin, refs);
    if a.Keys == b.Keys { SameMeaningsIff(nfc, p, q, a, b, id, origin, refs); }
  }

  lemma SameMeaningsIff(nfc: string -> string, p: Provenance, q: Provenance, a: Entity, b: Entity,
                        id: string, origin: string, refs: string)
    requires Holds(p, a, id, origin, refs) && Holds(q, b, id, origin, refs) && a.Keys == b.Keys
    requires p.texts.Keys == q.texts.Keys && p.sourceRefs.Some? == q.sourceRefs.Some?
    ensures (forall f :: f in a && f in b ==> MeaningOf(nfc, a[f]) == MeaningOf(nfc, b[f])) <==> SayTheSame(nfc, p, q)
  {
    if p.sourceRefs.Some? { SameRefsIff(nfc, p.sourceRefs.value, q.sourceRefs.value); }
    TextMeans(nfc, p.documentId, q.documentId);
    TextMeans(nfc, p.origin, q.origin);
    forall f | f in p.texts && f in q.texts
      ensures MeaningOf(nfc, a[f]) == MeaningOf(nfc, b[f]) <==> Folded(nfc, p.texts[f]) == Folded(nfc, q.texts[f])
    {
      TextMeans(nfc, p.texts[f], q.texts[f]);
    }
    assert forall f :: f in a <==> f in p.texts.Keys || f == id || f == origin || (p.sourceRefs.Some? && f == refs);
  }

  lemma TextMeans(nfc: string -> string, s: string, t: string)
    ensures MeaningOf(nfc, Str(s)) == MeaningOf(nfc, Str(t)) <==> Folded(nfc, s) == Folded(nfc, t)
  {
  }

  lemma RecordIsWellFormed(p: Provenance)
    ensures WellFormed(Obj(Present(PROVENANCE_FIELDS, AsEntity(p))))
  {
    KeysOf(p);
    forall f | f in AsEntity(p) ensures WellFormed(AsEntity(p)[f]) {
    }
    PresentIsWellFormed(PROVENANCE_FIELDS, AsEntity(p));
  }

  /** The canonical texts of two records are equal exactly when the records say the same. */
  lemma ProvenanceTextsIff(nfc: string -> string, p: Provenance, q: Provenance)
    requires KeepsProvenanceNames(nfc)
    requires (forall f :: f in p.texts ==> f in TEXT_FIELDS) && (forall f :: f in q.texts ==> f in TEXT_FIELDS)
    ensures ProvenanceText(nfc, p) == ProvenanceText(nfc, q) <==> SayTheSame(nfc, p, q)
  {
    var a, b := AsEntity(p), AsEntity(q);
    RecordHolds(p);
    RecordHolds(q);
    RecordIsWellFormed(p);
    RecordIsWellFormed(q);
    CanonicalTextIffSameMeaning(nfc, Obj(Present(PROVENANCE_FIELDS, a)), Obj(Present(PROVENANCE_FIELDS, b)));
    EntityMeant(nfc, a);
    EntityMeant(nfc, b);
    SameEntityIff(nfc, a, b, MeaningOf(nfc, Obj(Present(PROVENANCE_FIELDS, a))),
                  MeaningOf(nfc, Obj(Present(PROVENANCE_FIELDS, b))));
    SameFieldsIff(nfc, p, q, a, b, "documentId", "origin", "sourceRefs");
  }
}
