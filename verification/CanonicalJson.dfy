/** Canonical JSON text: what it says about a value, and that it says exactly that. */
module CanonicalJson {
  import opened Utf8
  import opened JsonScan

  // Unicode normalisation is an arbitrary function nfc throughout; a number enters as the
  // text that String(value) gives for it.

  datatype Field = Field(key: string, value: Value)

  datatype Value =
    | Null
    | Bool(b: bool)
    | Num(text: string)
    | Str(s: string)
    | Arr(items: seq<Value>)
    | Obj(fields: seq<Field>)

  // ---- Text normalisation ----

  predicate IsSpace(c: char) {
    var n := c as int;
    9 <= n <= 13 || n == 0x20 || n == 0xA0 || n == 0x1680 || 0x2000 <= n <= 0x200A ||
    n == 0x2028 || n == 0x2029 || n == 0x202F || n == 0x205F || n == 0x3000 || n == 0xFEFF
  }

  function WordEnd(s: string): (n: nat)
    ensures n <= |s| && (n < |s| ==> IsSpace(s[n]))
    ensures forall i :: 0 <= i < n ==> !IsSpace(s[i])
    ensures s != "" && !IsSpace(s[0]) ==> n > 0
  {
    if s == "" || IsSpace(s[0]) then 0 else 1 + WordEnd(s[1..])
  }

  predicate IsWord(w: string) {
    w != "" && forall i :: 0 <= i < |w| ==> !IsSpace(w[i])
  }

  // The non-empty pieces between runs of white space.
  function Words(s: string): (r: seq<string>)
    ensures forall i :: 0 <= i < |r| ==> IsWord(r[i])
    decreases |s|
  {
    if s == "" then []
    else if IsSpace(s[0]) then Words(s[1..])
    else [s[..WordEnd(s)]] + Words(s[WordEnd(s)..])
  }

  function Spaced(words: seq<string>): string {
    if words == [] then "" else if |words| == 1 then words[0] else words[0] + " " + Spaced(words[1..])
  }

  function NormalizeText(nfc: string -> string, s: string): string {
    Spaced(Words(nfc(s)))
  }

  lemma FirstWord(words: seq<string>)
    requires words != [] && forall i :: 0 <= i < |words| ==> IsWord(words[i])
    ensures WordEnd(Spaced(words)) == |words[0]| && Spaced(words)[..|words[0]|] == words[0]
    ensures |Spaced(words)| > |words[0]| <==> |words| > 1
    ensures |words| > 1 ==> Spaced(words)[|words[0]| + 1..] == Spaced(words[1..])
  {
    var s := Spaced(words);
    var n := WordEnd(s);
    assert forall i :: 0 <= i < |words[0]| ==> s[i] == words[0][i];
    if |words| > 1 { assert s[|words[0]|] == ' '; }
  }

  /** Spacing words out and splitting them again gives the words back. */
  lemma {:induction false} SpacedReadable(a: seq<string>, b: seq<string>)
    requires forall i :: 0 <= i < |a| ==> IsWord(a[i])
    requires forall i :: 0 <= i < |b| ==> IsWord(b[i])
    requires Spaced(a) == Spaced(b)
    ensures a == b
  {
    if a != [] { FirstWord(a); }
    if b != [] { FirstWord(b); }
    if a != [] && b != [] {
      if |a| > 1 {
        assert forall i :: 0 <= i < |a| - 1 ==> a[1..][i] == a[i + 1];
        assert forall i :: 0 <= i < |b| - 1 ==> b[1..][i] == b[i + 1];
        SpacedReadable(a[1..], b[1..]);
      }
      assert a == [a[0]] + a[1..] && b == [b[0]] + b[1..];
    }
  }

  // ---- String literals ----

  function HexDigit(n: nat): char
    requires n < 16
  {
    if n < 10 then '0' + n as char else 'a' + (n - 10) as char
  }

  function EscapeChar(c: char): string {
    var n := c as int;
    if c == '"' then "\\\""
    else if c == '\\' then "\\\\"
    else if n == 8 then "\\b"
    else if n == 9 then "\\t"
    else if n == 10 then "\\n"
    else if n == 12 then "\\f"
    else if n == 13 then "\\r"
    else if n < 0x20 then "\\u00" + [HexDigit(n / 16), HexDigit(n % 16)]
    else [c]
  }

  /**
    Nothing is escaped that need not be: a character stands for itself unless it is a quote, a backslash or a control
    character; those with a short escape have it, the other control characters four lower-case hex digits.
  */
  lemma EscapedOnlyIf(c: char)
    ensures var e, n := EscapeChar(c), c as int;
            (e == [c] <==> n >= 0x20 && c != '"' && c != '\\') &&
            (|e| == 2 <==> c == '"' || c == '\\' || n == 8 || n == 9 || n == 10 || n == 12 || n == 13) &&
            (|e| == 6 <==> n < 0x20 && n != 8 && n != 9 && n != 10 && n != 12 && n != 13) && |e| in {1, 2, 6} &&
            (|e| == 6 ==> forall i :: 2 <= i < 6 ==> '0' <= e[i] <= '9' || 'a' <= e[i] <= 'f')
  {
  }

  function EscapeAll(s: string): string {
    if s == "" then "" else EscapeChar(s[0]) + EscapeAll(s[1..])
  }

  function Quote(s: string): string {
    "\"" + EscapeAll(s) + "\""
  }

  lemma {:induction false} EscapedIsBody(s: string)
    ensures StringBody(EscapeAll(s))
  {
    if s != "" {
      EscapedIsBody(s[1..]);
      var e, rest := EscapeChar(s[0]), EscapeAll(s[1..]);
      assert (e + rest)[|e|..] == rest;
    }
  }

  lemma QuoteIsString(s: string)
    ensures IsString(Quote(s))
  {
    EscapedIsBody(s);
    assert Quote(s)[1..|Quote(s)| - 1] == EscapeAll(s);
  }

  // The escape of a character tells the character, and where it ends.
  function Unescape(e: string): int {
    if |e| == 1 then e[0] as int
    else if |e| == 2 then
      (if e[1] == 'b' then 8 else if e[1] == 't' then 9 else if e[1] == 'n' then 10
       else if e[1] == 'f' then 12 else if e[1] == 'r' then 13 else e[1] as int)
    else if |e| == 6 then
      16 * (e[4] as int - '0' as int) +
        (if e[5] >= 'a' then e[5] as int - 'a' as int + 10 else e[5] as int - '0' as int)
    else 0
  }

  lemma UnescapeEscaped(c: char)
    ensures Unescape(EscapeChar(c)) == c as int
  {
  }

  lemma EscapeReadable(c: char, x: string, d: char, y: string)
    requires EscapeChar(c) + x == EscapeChar(d) + y
    ensures c == d && x == y
  {
    var a, b := EscapeChar(c), EscapeChar(d);
    var whole := a + x;
    assert whole[0] == a[0] && whole[0] == b[0];
    if |a| > 1 { assert whole[1] == a[1]; }
    if |b| > 1 { assert whole[1] == b[1]; }
    assert |a| == |b|;
    assert a == whole[..|a|] && b == whole[..|b|];
    assert x == whole[|a|..] && y == whole[|b|..];
    UnescapeEscaped(c);
    UnescapeEscaped(d);
  }

  lemma {:induction false} EscapeAllInjective(s: string, t: string)
    requires EscapeAll(s) == EscapeAll(t)
    ensures s == t
  {
    if s != "" && t != "" {
      EscapeReadable(s[0], EscapeAll(s[1..]), t[0], EscapeAll(t[1..]));
      EscapeAllInjective(s[1..], t[1..]);
      assert s == [s[0]] + s[1..] && t == [t[0]] + t[1..];
    }
  }

  lemma QuoteInjective(s: string, t: string)
    requires Quote(s) == Quote(t)
    ensures s == t
  {
    assert Quote(s)[1..|Quote(s)| - 1] == EscapeAll(s);
    assert Quote(t)[1..|Quote(t)| - 1] == EscapeAll(t);
    EscapeAllInjective(s, t);
  }

  // ---- Canonical text ----

  // For every normalised key the index of its last field.
  function LastWins(nfc: string -> string, fields: seq<Field>): (m: map<string, nat>)
    ensures forall k :: k in m ==> m[k] < |fields|
  {
    if fields == [] then map[]
    else
      var n := |fields| - 1;
      LastWins(nfc, fields[..n])[nfc(fields[n].key) := n]
  }

  // The normalised keys in order of first insertion.
  function Keys(nfc: string -> string, fields: seq<Field>): (ks: seq<string>)
    ensures forall k :: k in ks <==> k in LastWins(nfc, fields)
    ensures forall i, j :: 0 <= i < j < |ks| ==> ks[i] != ks[j]
  {
    if fields == [] then []
    else
      var n := |fields| - 1;
      var ks := Keys(nfc, fields[..n]);
      var k := nfc(fields[n].key);
      if k in ks then ks else ks + [k]
  }

  /** The loop that fills the entry map: later fields replace earlier ones under the same normalised key. */
  method EntryMap(nfc: string -> string, fields: seq<Field>) returns (m: map<string, nat>)
    ensures m == LastWins(nfc, fields)
    ensures forall k :: k in m ==> nfc(fields[m[k]].key) == k
    ensures forall i :: 0 <= i < |fields| ==> nfc(fields[i].key) in m && i <= m[nfc(fields[i].key)]
  {
    m := map[];
    for i := 0 to |fields|
      invariant m == LastWins(nfc, fields[..i])
    {
      assert fields[..i + 1][..i] == fields[..i];
      m := m[nfc(fields[i].key) := i];
    }
    assert fields[..|fields|] == fields;
    LastOnes(nfc, fields);
  }

  lemma {:induction false} LastOnes(nfc: string -> string, fields: seq<Field>)
    ensures forall k :: k in LastWins(nfc, fields) ==> nfc(fields[LastWins(nfc, fields)[k]].key) == k
    ensures forall i :: 0 <= i < |fields| ==>
              nfc(fields[i].key) in LastWins(nfc, fields) && i <= LastWins(nfc, fields)[nfc(fields[i].key)]
  {
    if fields != [] {
      var n := |fields| - 1;
      LastOnes(nfc, fields[..n]);
      var before, last := LastWins(nfc, fields[..n]), LastWins(nfc, fields);
      forall i | 0 <= i < |fields| ensures nfc(fields[i].key) in last && i <= last[nfc(fields[i].key)] {
        if i < n { assert fields[..n][i] == fields[i]; }
      }
    }
  }

  function SortedKeys(nfc: string -> string, fields: seq<Field>): (ks: seq<string>)
    ensures forall i :: 0 <= i < |ks| ==> ks[i] in LastWins(nfc, fields)
  {
    SortSorts(Keys(nfc, fields));
    SortedElements(Keys(nfc, fields));
    Sort(Keys(nfc, fields))
  }

  lemma SortedElements(s: seq<string>)
    ensures |Sort(s)| == |s|
    ensures forall x :: x in Sort(s) <==> x in s
    ensures forall i :: 0 <= i < |s| ==> Sort(s)[i] in s
  {
    SortSorts(s);
    forall x ensures x in Sort(s) <==> x in s {
      assert x in Sort(s) <==> x in multiset(Sort(s));
      assert x in s <==> x in multiset(s);
    }
  }

  function Canonicalize(nfc: string -> string, v: Value): string
    decreases v
  {
    match v
    case Null => "null"
    case Bool(b) => if b then "true" else "false"
    case Num(text) => text
    case Str(s) => Quote(NormalizeText(nfc, s))
    case Arr(items) =>
      "[" + Join(Sort(seq(|items|, i requires 0 <= i < |items| => Canonicalize(nfc, items[i])))) + "]"
    case Obj(fields) =>
      var last, keys := LastWins(nfc, fields), SortedKeys(nfc, fields);
      "{" + Join(seq(|keys|, i requires 0 <= i < |keys| =>
                   Quote(keys[i]) + ":" + Canonicalize(nfc, fields[last[keys[i]]].value))) + "}"
  }

  // Number texts are scalars and none of the three names.
  predicate WellFormed(v: Value)
    decreases v
  {
    match v
    case Num(text) => IsScalar(text) && text != "null" && text != "true" && text != "false"
    case Arr(items) => forall i :: 0 <= i < |items| ==> WellFormed(items[i])
    case Obj(fields) => forall i :: 0 <= i < |fields| ==> WellFormed(fields[i].value)
    case _ => true
  }

  // ---- What canonical text is meant to say ----

  datatype Meaning =
    | MNull
    | MBool(b: bool)
    | MNum(text: string)
    | MStr(words: seq<string>)
    | MArr(items: multiset<Meaning>)
    | MObj(fields: map<string, Meaning>)

  function MeaningOf(nfc: string -> string, v: Value): Meaning
    decreases v
  {
    match v
    case Null => MNull
    case Bool(b) => MBool(b)
    case Num(text) => MNum(text)
    case Str(s) => MStr(Words(nfc(s)))
    case Arr(items) => MArr(multiset(seq(|items|, i requires 0 <= i < |items| => MeaningOf(nfc, items[i]))))
    case Obj(fields) =>
      var last := LastWins(nfc, fields);
      MObj(map k | k in last :: MeaningOf(nfc, fields[last[k]].value))
  }

  function Texts(nfc: string -> string, items: seq<Value>): (r: seq<string>)
    ensures |r| == |items| && forall i :: 0 <= i < |r| ==> r[i] == Canonicalize(nfc, items[i])
  {
    seq(|items|, i requires 0 <= i < |items| => Canonicalize(nfc, items[i]))
  }

  function Meanings(nfc: string -> string, items: seq<Value>): (r: seq<Meaning>)
    ensures |r| == |items| && forall i :: 0 <= i < |r| ==> r[i] == MeaningOf(nfc, items[i])
  {
    seq(|items|, i requires 0 <= i < |items| => MeaningOf(nfc, items[i]))
  }

  function Part(nfc: string -> string, fields: seq<Field>, k: string): string
    requires k in LastWins(nfc, fields)
  {
    Quote(k) + ":" + Canonicalize(nfc, fields[LastWins(nfc, fields)[k]].value)
  }

  function Parts(nfc: string -> string, fields: seq<Field>): (r: seq<string>)
    ensures var ks := SortedKeys(nfc, fields);
            |r| == |ks| && forall i :: 0 <= i < |r| ==> r[i] == Part(nfc, fields, ks[i])
  {
    var ks := SortedKeys(nfc, fields);
    seq(|ks|, i requires 0 <= i < |ks| => Part(nfc, fields, ks[i]))
  }

  lemma CanonicalArr(nfc: string -> string, items: seq<Value>)
    ensures Canonicalize(nfc, Arr(items)) == "[" + Join(Sort(Texts(nfc, items))) + "]"
    ensures MeaningOf(nfc, Arr(items)) == MArr(multiset(Meanings(nfc, items)))
  {
    assert Texts(nfc, items) == seq(|items|, i requires 0 <= i < |items| => Canonicalize(nfc, items[i]));
    assert Meanings(nfc, items) == seq(|items|, i requires 0 <= i < |items| => MeaningOf(nfc, items[i]));
  }

  lemma CanonicalObj(nfc: string -> string, fields: seq<Field>)
    ensures Canonicalize(nfc, Obj(fields)) == "{" + Join(Parts(nfc, fields)) + "}"
  {
    var last, keys := LastWins(nfc, fields), SortedKeys(nfc, fields);
    assert Parts(nfc, fields) == seq(|keys|, i requires 0 <= i < |keys| =>
                   Quote(keys[i]) + ":" + Canonicalize(nfc, fields[last[keys[i]]].value));
  }

  // ---- Canonical text is JSON ----

  function Max(s: seq<nat>): (m: nat)
    ensures forall i :: 0 <= i < |s| ==> s[i] <= m
  {
    if s == [] then 0
    else
      var m := Max(s[1..]);
      assert forall i :: 1 <= i < |s| ==> s[i] == s[1..][i - 1];
      if s[0] >= m then s[0] else m
  }

  function Height(v: Value): nat
    decreases v
  {
    match v
    case Arr(items) => 1 + Max(seq(|items|, i requires 0 <= i < |items| => Height(items[i])))
    case Obj(fields) => 1 + Max(seq(|fields|, i requires 0 <= i < |fields| => Height(fields[i].value)))
    case _ => 0
  }

  lemma ChildIsLower(v: Value, i: nat)
    ensures v.Arr? && i < |v.items| ==> Height(v.items[i]) < Height(v)
    ensures v.Obj? && i < |v.fields| ==> Height(v.fields[i].value) < Height(v)
  {
    if v.Arr? && i < |v.items| {
      var heights := seq(|v.items|, i requires 0 <= i < |v.items| => Height(v.items[i]));
      assert heights[i] <= Max(heights);
    }
    if v.Obj? && i < |v.fields| {
      var heights := seq(|v.fields|, i requires 0 <= i < |v.fields| => Height(v.fields[i].value));
      assert heights[i] <= Max(heights);
    }
  }

  lemma {:induction false} DeeperIsFine(s: string, n: nat, m: nat)
    requires JsonText(s, n) && n <= m
    ensures JsonText(s, m)
    decreases n, 0
  {
    if !IsScalar(s) && !IsString(s) {
      if IsArray(s, n - 1) {
        var texts :| IsArrayOf(s, texts, n - 1);
        forall i | 0 <= i < |texts| ensures IsElement(texts[i], m - 1) { DeeperElement(texts[i], n - 1, m - 1); }
        assert IsArrayOf(s, texts, m - 1);
      } else {
        var texts :| IsObjectOf(s, texts, n - 1);
        forall i | 0 <= i < |texts| ensures IsMember(texts[i], m - 1) { DeeperMember(texts[i], n - 1, m - 1); }
        assert IsObjectOf(s, texts, m - 1);
      }
    }
  }

  lemma {:induction false} DeeperElement(t: string, n: nat, m: nat)
    requires IsElement(t, n) && n <= m
    ensures IsElement(t, m)
    decreases n, 1
  {
    var before, core, after :| Ws(before) && Ws(after) && JsonText(core, n) && t == before + core + after;
    DeeperIsFine(core, n, m);
  }

  lemma {:induction false} DeeperMember(t: string, n: nat, m: nat)
    requires IsMember(t, n) && n <= m
    ensures IsMember(t, m)
    decreases n, 2
  {
    var before, key, after, value :|
      Ws(before) && IsString(key) && Ws(after) && IsElement(value, n) && t == before + key + after + ":" + value;
    DeeperElement(value, n, m);
  }

  lemma PlainElement(s: string, n: nat)
    requires JsonText(s, n)
    ensures IsElement(s, n)
  {
    assert s == "" + s + "";
    assert Ws("");
  }

  lemma PlainMember(key: string, s: string, n: nat)
    requires IsString(key) && JsonText(s, n)
    ensures IsMember(key + ":" + s, n)
  {
    PlainElement(s, n);
    assert key + ":" + s == "" + key + "" + ":" + s;
    assert Ws("");
  }

  lemma ArrayIsJson(nfc: string -> string, items: seq<Value>, n: nat)
    requires forall i :: 0 <= i < |items| ==> JsonText(Canonicalize(nfc, items[i]), n)
    ensures JsonText(Canonicalize(nfc, Arr(items)), n + 1)
  {
    var texts := Texts(nfc, items);
    forall i | 0 <= i < |items| ensures IsElement(texts[i], n) { PlainElement(texts[i], n); }
    SortedElements(texts);
    CanonicalArr(nfc, items);
    var sorted := Sort(texts);
    assert Ws("") && "[" + "" + Join(sorted) + "]" == "[" + Join(sorted) + "]";
    assert IsArrayOf(Canonicalize(nfc, Arr(items)), sorted, n);
  }

  lemma ObjectIsJson(nfc: string -> string, fields: seq<Field>, n: nat)
    requires forall i :: 0 <= i < |fields| ==> JsonText(Canonicalize(nfc, fields[i].value), n)
    ensures JsonText(Canonicalize(nfc, Obj(fields)), n + 1)
  {
    var keys, last, parts := SortedKeys(nfc, fields), LastWins(nfc, fields), Parts(nfc, fields);
    forall i | 0 <= i < |parts| ensures IsMember(parts[i], n) {
      QuoteIsString(keys[i]);
      PlainMember(Quote(keys[i]), Canonicalize(nfc, fields[last[keys[i]]].value), n);
    }
    CanonicalObj(nfc, fields);
    MembersMakeAnObject(parts, n);
  }

  lemma MembersMakeAnObject(parts: seq<string>, n: nat)
    requires forall i :: 0 <= i < |parts| ==> IsMember(parts[i], n)
    ensures JsonText("{" + Join(parts) + "}", n + 1)
  {
    assert Ws("") && "{" + "" + Join(parts) + "}" == "{" + Join(parts) + "}";
    assert IsObjectOf("{" + Join(parts) + "}", parts, n);
    assert IsObject("{" + Join(parts) + "}", n);
  }

  /** The canonical text of a value is a JSON text. */
  lemma {:induction false} CanonicalIsJson(nfc: string -> string, v: Value)
    requires WellFormed(v)
    ensures JsonText(Canonicalize(nfc, v), Height(v))
    decreases v
  {
    var n := Height(v) - 1;
    match v {
      case Null => assert IsScalar("null");
      case Bool(b) => assert IsScalar("true") && IsScalar("false");
      case Num(text) =>
      case Str(s) => QuoteIsString(NormalizeText(nfc, s));
      case Arr(items) =>
        forall i | 0 <= i < |items| ensures JsonText(Canonicalize(nfc, items[i]), n) {
          ChildIsLower(v, i);
          CanonicalIsJson(nfc, items[i]);
          DeeperIsFine(Canonicalize(nfc, items[i]), Height(items[i]), n);
        }
        ArrayIsJson(nfc, items, n);
      case Obj(fields) =>
        forall i | 0 <= i < |fields| ensures JsonText(Canonicalize(nfc, fields[i].value), n) {
          ChildIsLower(v, i);
          CanonicalIsJson(nfc, fields[i].value);
          DeeperIsFine(Canonicalize(nfc, fields[i].value), Height(fields[i].value), n);
        }
        ObjectIsJson(nfc, fields, n);
    }
  }

  // ---- Exactly the intended equivalence ----

  lemma Clean(nfc: string -> string, v: Value, stops: set<char>)
    requires WellFormed(v) && stops <= DELIMITERS
    ensures Passes(Both, 0, Canonicalize(nfc, v), stops)
  {
    CanonicalIsJson(nfc, v);
    ValuePasses(Both, 0, Canonicalize(nfc, v), Height(v), stops);
  }

  lemma FirstCharacter(nfc: string -> string, v: Value)
    requires WellFormed(v)
    ensures var t := Canonicalize(nfc, v);
            t != "" &&
            match v
            case Str(_) => t[0] == '"'
            case Arr(_) => t[0] == '['
            case Obj(_) => t[0] == '{'
            case _ => !Structural(t[0])
  {
    match v
    case Null => assert "null"[0] == 'n';
    case Bool(b) => assert "true"[0] == 't' && "false"[0] == 'f';
    case Num(text) => assert !Structural(text[0]);
    case Str(s) =>
    case Arr(items) =>
    case Obj(fields) =>
  }

  function Without<T>(s: seq<T>, j: nat): (r: seq<T>)
    requires j < |s|
    ensures |r| == |s| - 1 && forall k :: 0 <= k < |r| ==> r[k] == s[if k < j then k else k + 1]
  {
    s[..j] + s[j + 1..]
  }

  lemma {:induction false} BagTransfer<A, B>(a: seq<A>, b: seq<A>, s: seq<B>, t: seq<B>)
    requires |a| == |s| && |b| == |t| && multiset(a) == multiset(b)
    requires forall i, j :: 0 <= i < |a| && 0 <= j < |b| && a[i] == b[j] ==> s[i] == t[j]
    ensures multiset(s) == multiset(t)
    decreases |a|
  {
    assert |a| == |multiset(a)| == |multiset(b)| == |b|;
    if a != [] {
      assert a[0] in multiset(b);
      var j :| 0 <= j < |b| && b[j] == a[0];
      RestBag(a, 0);
      RestBag(s, 0);
      RestBag(b, j);
      RestBag(t, j);
      BagTransfer(Without(a, 0), Without(b, j), Without(s, 0), Without(t, j));
    }
  }

  lemma RestBag<T>(s: seq<T>, j: nat)
    requires j < |s|
    ensures multiset(Without(s, j)) == multiset(s) - multiset{s[j]}
    ensures multiset(s) == multiset(Without(s, j)) + multiset{s[j]}
  {
    assert s == s[..j] + [s[j]] + s[j + 1..];
  }

  // Pairwise: equal texts exactly when equal meanings.
  ghost predicate Agree(nfc: string -> string, us: seq<Value>, vs: seq<Value>) {
    forall i, j :: 0 <= i < |us| && 0 <= j < |vs| ==>
      (Canonicalize(nfc, us[i]) == Canonicalize(nfc, vs[j]) <==> MeaningOf(nfc, us[i]) == MeaningOf(nfc, vs[j]))
  }

  lemma Unwrap(open: string, inside: string, close: string)
    requires |open| == 1
    ensures (open + inside + close)[1..] == inside + close
  {
  }

  lemma ArraysReadable(nfc: string -> string, us: seq<Value>, vs: seq<Value>)
    requires WellFormed(Arr(us)) && WellFormed(Arr(vs))
    requires Canonicalize(nfc, Arr(us)) == Canonicalize(nfc, Arr(vs))
    ensures multiset(Texts(nfc, us)) == multiset(Texts(nfc, vs))
  {
    var s, t := Texts(nfc, us), Texts(nfc, vs);
    CanonicalArr(nfc, us);
    CanonicalArr(nfc, vs);
    CleanTexts(nfc, us);
    CleanTexts(nfc, vs);
    Unwrap("[", Join(Sort(s)), "]");
    Unwrap("[", Join(Sort(t)), "]");
    JoinReadable(Sort(s), "]", Sort(t), "]", {',', ']'});
    SortIsCanonical(s, t);
  }

  lemma ArraysAgree(nfc: string -> string, us: seq<Value>, vs: seq<Value>)
    requires WellFormed(Arr(us)) && WellFormed(Arr(vs)) && Agree(nfc, us, vs)
    ensures Canonicalize(nfc, Arr(us)) == Canonicalize(nfc, Arr(vs)) <==>
            MeaningOf(nfc, Arr(us)) == MeaningOf(nfc, Arr(vs))
  {
    var s, t := Texts(nfc, us), Texts(nfc, vs);
    var a, b := Meanings(nfc, us), Meanings(nfc, vs);
    CanonicalArr(nfc, us);
    CanonicalArr(nfc, vs);
    if multiset(a) == multiset(b) {
      BagTransfer(a, b, s, t);
      SortIsCanonical(s, t);
    }
    if Canonicalize(nfc, Arr(us)) == Canonicalize(nfc, Arr(vs)) {
      ArraysReadable(nfc, us, vs);
      BagTransfer(s, t, a, b);
    }
  }

  lemma CleanTexts(nfc: string -> string, vs: seq<Value>)
    requires WellFormed(Arr(vs))
    ensures CleanItems(Sort(Texts(nfc, vs)), {',', ']'})
  {
    var texts := Texts(nfc, vs);
    SortedElements(texts);
    forall i | 0 <= i < |texts|
      ensures texts[i] != "" && texts[i][0] !in {',', ']'} && Passes(Both, 0, texts[i], {',', ']'})
    {
      Clean(nfc, vs[i], {',', ']'});
      FirstCharacter(nfc, vs[i]);
    }
  }

  lemma PartIsClean(nfc: string -> string, fields: seq<Field>, k: string)
    requires WellFormed(Obj(fields)) && k in LastWins(nfc, fields)
    ensures Passes(Both, 0, Part(nfc, fields, k), {',', '}'}) && Part(nfc, fields, k)[0] == '"'
  {
    var stops := {',', '}'};
    var value := fields[LastWins(nfc, fields)[k]].value;
    QuoteIsString(k);
    StringPasses(Both, 0, Quote(k), stops);
    FeedOne(Both, Out(0), ':');
    assert ":"[1..] == "";
    Clean(nfc, value, stops);
    PassesAppend(Both, 0, Quote(k), ":", stops);
    PassesAppend(Both, 0, Quote(k) + ":", Canonicalize(nfc, value), stops);
  }

  lemma KeyReadable(k: string, s: string, l: string, t: string)
    requires Quote(k) + ":" + s == Quote(l) + ":" + t
    ensures k == l && s == t
  {
    QuoteIsString(k);
    QuoteIsString(l);
    StringPasses(Both, 0, Quote(k), {':'});
    StringPasses(Both, 0, Quote(l), {':'});
    assert Quote(k) + ":" + s == Quote(k) + (":" + s);
    assert Quote(l) + ":" + t == Quote(l) + (":" + t);
    Cancellation(Quote(k), ":" + s, Quote(l), ":" + t, {':'});
    QuoteInjective(k, l);
    assert (":" + s)[1..] == s && (":" + t)[1..] == t;
  }

  lemma SameKeysSorted(nfc: string -> string, us: seq<Field>, vs: seq<Field>)
    requires LastWins(nfc, us).Keys == LastWins(nfc, vs).Keys
    ensures SortedKeys(nfc, us) == SortedKeys(nfc, vs)
  {
    var s, t := Keys(nfc, us), Keys(nfc, vs);
    forall x ensures multiset(s)[x] == multiset(t)[x] {
      DistinctOnce(s, x);
      DistinctOnce(t, x);
      assert x in s <==> x in LastWins(nfc, us).Keys;
      assert x in t <==> x in LastWins(nfc, vs).Keys;
    }
    SortIsCanonical(s, t);
  }

  lemma {:induction false} DistinctOnce<T>(s: seq<T>, x: T)
    requires forall i, j :: 0 <= i < j < |s| ==> s[i] != s[j]
    ensures multiset(s)[x] == if x in s then 1 else 0
  {
    if s != [] {
      var n := |s| - 1;
      DistinctOnce(s[..n], x);
      assert s == s[..n] + [s[n]];
    }
  }

  function ValuesOf(fields: seq<Field>): (r: seq<Value>)
    ensures |r| == |fields| && forall i :: 0 <= i < |r| ==> r[i] == fields[i].value
  {
    seq(|fields|, i requires 0 <= i < |fields| => fields[i].value)
  }

  lemma SamePartsFromMeaning(nfc: string -> string, us: seq<Field>, vs: seq<Field>)
    requires Agree(nfc, ValuesOf(us), ValuesOf(vs))
    requires MeaningOf(nfc, Obj(us)) == MeaningOf(nfc, Obj(vs))
    ensures Parts(nfc, us) == Parts(nfc, vs)
  {
    var a, b := MeaningOf(nfc, Obj(us)).fields, MeaningOf(nfc, Obj(vs)).fields;
    var mu, mv := LastWins(nfc, us), LastWins(nfc, vs);
    assert mu.Keys == a.Keys && mv.Keys == b.Keys;
    SameKeysSorted(nfc, us, vs);
    var keys := SortedKeys(nfc, us);
    forall i | 0 <= i < |keys| ensures Part(nfc, us, keys[i]) == Part(nfc, vs, keys[i]) {
      var p, q := mu[keys[i]], mv[keys[i]];
      assert a[keys[i]] == MeaningOf(nfc, us[p].value) && b[keys[i]] == MeaningOf(nfc, vs[q].value);
      assert ValuesOf(us)[p] == us[p].value && ValuesOf(vs)[q] == vs[q].value;
    }
  }

  lemma PartsReadable(nfc: string -> string, us: seq<Field>, vs: seq<Field>)
    requires WellFormed(Obj(us)) && WellFormed(Obj(vs))
    requires Canonicalize(nfc, Obj(us)) == Canonicalize(nfc, Obj(vs))
    ensures Parts(nfc, us) == Parts(nfc, vs)
  {
    var p, q := Parts(nfc, us), Parts(nfc, vs);
    CanonicalObj(nfc, us);
    CanonicalObj(nfc, vs);
    CleanParts(nfc, us);
    CleanParts(nfc, vs);
    Unwrap("{", Join(p), "}");
    Unwrap("{", Join(q), "}");
    JoinReadable(p, "}", q, "}", {',', '}'});
  }

  lemma CleanParts(nfc: string -> string, fields: seq<Field>)
    requires WellFormed(Obj(fields))
    ensures CleanItems(Parts(nfc, fields), {',', '}'})
  {
    var parts, keys := Parts(nfc, fields), SortedKeys(nfc, fields);
    forall i | 0 <= i < |parts|
      ensures parts[i] != "" && parts[i][0] !in {',', '}'} && Passes(Both, 0, parts[i], {',', '}'})
    {
      PartIsClean(nfc, fields, keys[i]);
    }
  }

  lemma KeysFromParts(nfc: string -> string, us: seq<Field>, vs: seq<Field>)
    requires Parts(nfc, us) == Parts(nfc, vs)
    ensures LastWins(nfc, us).Keys == LastWins(nfc, vs).Keys
    ensures forall k :: k in LastWins(nfc, us) ==>
              Canonicalize(nfc, us[LastWins(nfc, us)[k]].value) == Canonicalize(nfc, vs[LastWins(nfc, vs)[k]].value)
  {
    var mu, mv := LastWins(nfc, us), LastWins(nfc, vs);
    var ku, kv := SortedKeys(nfc, us), SortedKeys(nfc, vs);
    forall i | 0 <= i < |ku|
      ensures ku[i] == kv[i] && Canonicalize(nfc, us[mu[ku[i]]].value) == Canonicalize(nfc, vs[mv[ku[i]]].value)
    {
      assert Parts(nfc, us)[i] == Part(nfc, us, ku[i]) && Parts(nfc, vs)[i] == Part(nfc, vs, kv[i]);
      KeyReadable(ku[i], Canonicalize(nfc, us[mu[ku[i]]].value), kv[i], Canonicalize(nfc, vs[mv[kv[i]]].value));
    }
    assert ku == kv;
    SortedElements(Keys(nfc, us));
    SortedElements(Keys(nfc, vs));
    assert forall k :: (k in mu <==> k in ku) && (k in mv <==> k in kv);
  }

  lemma ObjMeaning(nfc: string -> string, fields: seq<Field>)
    ensures var m, last := MeaningOf(nfc, Obj(fields)), LastWins(nfc, fields);
            m.MObj? && m.fields.Keys == last.Keys &&
            forall f :: f in m.fields ==> m.fields[f] == MeaningOf(nfc, fields[last[f]].value)
  {
  }

  lemma SameMeaningFromFields(nfc: string -> string, us: seq<Field>, vs: seq<Field>)
    requires LastWins(nfc, us).Keys == LastWins(nfc, vs).Keys
    requires forall k :: k in LastWins(nfc, us) ==>
               MeaningOf(nfc, us[LastWins(nfc, us)[k]].value) == MeaningOf(nfc, vs[LastWins(nfc, vs)[k]].value)
    ensures MeaningOf(nfc, Obj(us)) == MeaningOf(nfc, Obj(vs))
  {
    ObjMeaning(nfc, us);
    ObjMeaning(nfc, vs);
    SameMaps(MeaningOf(nfc, Obj(us)).fields, MeaningOf(nfc, Obj(vs)).fields);
  }

  lemma SameMaps(a: map<string, Meaning>, b: map<string, Meaning>)
    requires a.Keys == b.Keys && forall k :: k in a.Keys ==> a[k] == b[k]
    ensures a == b
  {
  }

  lemma SameMeaningFromParts(nfc: string -> string, us: seq<Field>, vs: seq<Field>)
    requires Agree(nfc, ValuesOf(us), ValuesOf(vs))
    requires Parts(nfc, us) == Parts(nfc, vs)
    ensures MeaningOf(nfc, Obj(us)) == MeaningOf(nfc, Obj(vs))
  {
    KeysFromParts(nfc, us, vs);
    forall k | k in LastWins(nfc, us)
      ensures k in LastWins(nfc, vs)
      ensures MeaningOf(nfc, us[LastWins(nfc, us)[k]].value) == MeaningOf(nfc, vs[LastWins(nfc, vs)[k]].value)
    {
      assert k in LastWins(nfc, vs).Keys;
      AgreeAt(nfc, us, vs, LastWins(nfc, us)[k], LastWins(nfc, vs)[k]);
    }
    SameMeaningFromFields(nfc, us, vs);
  }

  lemma AgreeAt(nfc: string -> string, us: seq<Field>, vs: seq<Field>, p: nat, q: nat)
    requires p < |us| && q < |vs| && Agree(nfc, ValuesOf(us), ValuesOf(vs))
    requires Canonicalize(nfc, us[p].value) == Canonicalize(nfc, vs[q].value)
    ensures MeaningOf(nfc, us[p].value) == MeaningOf(nfc, vs[q].value)
  {
    assert ValuesOf(us)[p] == us[p].value && ValuesOf(vs)[q] == vs[q].value;
  }

  lemma ObjectsAgree(nfc: string -> string, us: seq<Field>, vs: seq<Field>)
    requires WellFormed(Obj(us)) && WellFormed(Obj(vs)) && Agree(nfc, ValuesOf(us), ValuesOf(vs))
    ensures Canonicalize(nfc, Obj(us)) == Canonicalize(nfc, Obj(vs)) <==>
            MeaningOf(nfc, Obj(us)) == MeaningOf(nfc, Obj(vs))
  {
    CanonicalObj(nfc, us);
    CanonicalObj(nfc, vs);
    if MeaningOf(nfc, Obj(us)) == MeaningOf(nfc, Obj(vs)) {
      SamePartsFromMeaning(nfc, us, vs);
    }
    if Canonicalize(nfc, Obj(us)) == Canonicalize(nfc, Obj(vs)) {
      PartsReadable(nfc, us, vs);
      SameMeaningFromParts(nfc, us, vs);
    }
  }

  /**
    Canonical text is injective up to exactly the intended equivalence: arrays as
    multisets, objects as last-wins maps over normalised keys, strings as their
    words after normalisation, numbers as their text.
  */
  lemma {:induction false} CanonicalTextIffSameMeaning(nfc: string -> string, u: Value, v: Value)
    requires WellFormed(u) && WellFormed(v)
    ensures Canonicalize(nfc, u) == Canonicalize(nfc, v) <==> MeaningOf(nfc, u) == MeaningOf(nfc, v)
    decreases u
  {
    FirstCharacter(nfc, u);
    FirstCharacter(nfc, v);
    if u.Arr? && v.Arr? {
      forall i, j | 0 <= i < |u.items| && 0 <= j < |v.items|
        ensures Canonicalize(nfc, u.items[i]) == Canonicalize(nfc, v.items[j]) <==>
                MeaningOf(nfc, u.items[i]) == MeaningOf(nfc, v.items[j])
      {
        CanonicalTextIffSameMeaning(nfc, u.items[i], v.items[j]);
      }
      ArraysAgree(nfc, u.items, v.items);
    } else if u.Obj? && v.Obj? {
      forall i, j | 0 <= i < |u.fields| && 0 <= j < |v.fields|
        ensures Canonicalize(nfc, u.fields[i].value) == Canonicalize(nfc, v.fields[j].value) <==>
                MeaningOf(nfc, u.fields[i].value) == MeaningOf(nfc, v.fields[j].value)
      {
        CanonicalTextIffSameMeaning(nfc, u.fields[i].value, v.fields[j].value);
      }
      ObjectsAgree(nfc, u.fields, v.fields);
    } else if u.Str? && v.Str? {
      if Canonicalize(nfc, u) == Canonicalize(nfc, v) {
        QuoteInjective(NormalizeText(nfc, u.s), NormalizeText(nfc, v.s));
        SpacedReadable(Words(nfc(u.s)), Words(nfc(v.s)));
      }
    }
  }

  // ---- Order ----

  /** The keys of an object's canonical text stand in strict byte order, the items of an array's in byte order. */
  lemma CanonicalOrder(nfc: string -> string, fields: seq<Field>, items: seq<Value>)
    ensures var keys := SortedKeys(nfc, fields);
            Canonicalize(nfc, Obj(fields)) == "{" + Join(Parts(nfc, fields)) + "}" &&
            (forall k :: k in keys <==> exists i :: 0 <= i < |fields| && nfc(fields[i].key) == k) &&
            forall i, j :: 0 <= i < j < |keys| ==> Before(Encode(keys[i]), Encode(keys[j]))
    ensures exists texts :: Canonicalize(nfc, Arr(items)) == "[" + Join(texts) + "]" &&
              multiset(texts) == multiset(Texts(nfc, items)) &&
              forall i, j :: 0 <= i < j < |texts| ==> !Before(Encode(texts[j]), Encode(texts[i]))
  {
    KeysInOrder(nfc, fields);
    CanonicalObj(nfc, fields);
    CanonicalArr(nfc, items);
    ItemsInOrder(Texts(nfc, items));
  }

  lemma ItemsInOrder(s: seq<string>)
    ensures multiset(Sort(s)) == multiset(s)
    ensures forall i, j :: 0 <= i < j < |Sort(s)| ==> !Before(Encode(Sort(s)[j]), Encode(Sort(s)[i]))
  {
    SortSorts(s);
    forall i, j | 0 <= i < j < |Sort(s)| ensures !Before(Encode(Sort(s)[j]), Encode(Sort(s)[i])) {
      assert !StrBefore(Sort(s)[j], Sort(s)[i]);
    }
  }

  lemma KeysInOrder(nfc: string -> string, fields: seq<Field>)
    ensures var keys := SortedKeys(nfc, fields);
            (forall k :: k in keys <==> exists i :: 0 <= i < |fields| && nfc(fields[i].key) == k) &&
            forall i, j :: 0 <= i < j < |keys| ==> Before(Encode(keys[i]), Encode(keys[j]))
  {
    var ks, keys := Keys(nfc, fields), SortedKeys(nfc, fields);
    ItemsInOrder(ks);
    SortedElements(ks);
    SortedKeysDistinct(nfc, fields);
    LastOnes(nfc, fields);
    forall k | k in keys ensures exists i :: 0 <= i < |fields| && nfc(fields[i].key) == k {
      assert k in LastWins(nfc, fields);
      assert nfc(fields[LastWins(nfc, fields)[k]].key) == k;
    }
    forall i, j | 0 <= i < j < |keys| ensures Before(Encode(keys[i]), Encode(keys[j])) {
      BeforeIsTotal(Encode(keys[i]), Encode(keys[j]));
      if Encode(keys[i]) == Encode(keys[j]) { EncodeInjective(keys[i], keys[j]); }
    }
  }

  lemma SortedKeysDistinct(nfc: string -> string, fields: seq<Field>)
    ensures var keys := SortedKeys(nfc, fields); forall i, j :: 0 <= i < j < |keys| ==> keys[i] != keys[j]
  {
    var s, t := Keys(nfc, fields), SortedKeys(nfc, fields);
    SortSorts(s);
    forall i, j | 0 <= i < j < |t| ensures t[i] != t[j] {
      if t[i] == t[j] {
        DistinctOnce(s, t[i]);
        TwiceCounted(t, i, j);
      }
    }
  }

  lemma TwiceCounted<T>(s: seq<T>, i: nat, j: nat)
    requires i < j < |s| && s[i] == s[j]
    ensures multiset(s)[s[i]] >= 2
  {
    assert s == s[..j] + [s[j]] + s[j + 1..];
    assert s[..j][i] == s[i];
    assert s[i] in multiset(s[..j]);
  }
}
