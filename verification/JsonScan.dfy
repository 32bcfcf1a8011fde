/**
  The quote- and escape-aware bracket scanner, and JSON texts (RFC 8259,
  sections 2 to 7) as a grammar.

  What the scanner sees of a JSON text is what makes printed JSON readable
  again: it leaves a value as it entered it, and meets no delimiter on the way.
*/
module JsonScan {

  // ---- The scanner, one character at a time ----

  // Which brackets a pass counts: objects, arrays, or both kinds.
  datatype Brackets = Braces | Squares | Both

  predicate Opens(k: Brackets, c: char) {
    (c == '{' && !k.Squares?) || (c == '[' && !k.Braces?)
  }

  predicate Closes(k: Brackets, c: char) {
    (c == '}' && !k.Squares?) || (c == ']' && !k.Braces?)
  }

  datatype Scan = Scan(depth: int, inString: bool, escape: bool)

  function Out(d: int): Scan {
    Scan(d, false, false)
  }

  function Feed(k: Brackets, st: Scan, c: char): Scan {
    if st.escape then st.(escape := false)
    else if c == '\\' && st.inString then st.(escape := true)
    else if c == '"' then st.(inString := !st.inString)
    else if Opens(k, c) && !st.inString then st.(depth := st.depth + 1)
    else if Closes(k, c) && !st.inString then st.(depth := st.depth - 1)
    else st
  }

  function FeedAll(k: Brackets, st: Scan, s: string): Scan
    decreases s
  {
    if s == "" then st else FeedAll(k, Feed(k, st, s[0]), s[1..])
  }

  lemma {:induction false} FeedAppend(k: Brackets, st: Scan, s: string, t: string)
    ensures FeedAll(k, st, s + t) == FeedAll(k, FeedAll(k, st, s), t)
    decreases s
  {
    if s == "" {
      assert s + t == t;
    } else {
      assert (s + t)[1..] == s[1..] + t;
      FeedAppend(k, Feed(k, st, s[0]), s[1..], t);
    }
  }

  lemma FeedOne(k: Brackets, st: Scan, c: char)
    ensures FeedAll(k, st, [c]) == Feed(k, st, c)
  {
    assert [c][1..] == "";
  }

  // The depth never drops below the floor, and no stop character is met on the floor outside a string.
  predicate Quiet(k: Brackets, st: Scan, s: string, floor: int, stops: set<char>)
    decreases s
  {
    s == "" ||
    (var st' := Feed(k, st, s[0]);
     st'.depth >= floor && !(st == Out(floor) && s[0] in stops) && Quiet(k, st', s[1..], floor, stops))
  }

  lemma {:induction false} QuietAppend(k: Brackets, st: Scan, s: string, t: string, floor: int, stops: set<char>)
    requires Quiet(k, st, s, floor, stops) && Quiet(k, FeedAll(k, st, s), t, floor, stops)
    ensures Quiet(k, st, s + t, floor, stops)
    decreases s
  {
    if s == "" {
      assert s + t == t;
    } else {
      assert (s + t)[1..] == s[1..] + t;
      QuietAppend(k, Feed(k, st, s[0]), s[1..], t, floor, stops);
    }
  }

  // One level up nothing is a stop.
  lemma {:induction false} QuietBelow(k: Brackets, st: Scan, s: string, floor: int, low: int, stops: set<char>,
                                      others: set<char>)
    requires Quiet(k, st, s, floor, stops) && low < floor <= st.depth
    ensures Quiet(k, st, s, low, others)
    decreases s
  {
    if s != "" { QuietBelow(k, Feed(k, st, s[0]), s[1..], floor, low, stops, others); }
  }

  lemma {:induction false} QuietAt(k: Brackets, st: Scan, s: string, floor: int, stops: set<char>, p: nat)
    requires Quiet(k, st, s, floor, stops) && p < |s|
    ensures FeedAll(k, st, s[..p]) == Out(floor) ==> s[p] !in stops
    ensures FeedAll(k, st, s[..p + 1]).depth >= floor
    decreases s
  {
    if p == 0 {
      FeedOne(k, st, s[0]);
      assert s[..1] == [s[0]];
    } else {
      assert s[..p][1..] == s[1..][..p - 1] && s[..p + 1][1..] == s[1..][..p];
      QuietAt(k, Feed(k, st, s[0]), s[1..], floor, stops, p - 1);
    }
  }

  // Scanning s from depth d comes back to d and meets no stop on the way.
  predicate Passes(k: Brackets, d: int, s: string, stops: set<char>) {
    FeedAll(k, Out(d), s) == Out(d) && Quiet(k, Out(d), s, d, stops)
  }

  lemma PassesAppend(k: Brackets, d: int, s: string, t: string, stops: set<char>)
    requires Passes(k, d, s, stops) && Passes(k, d, t, stops)
    ensures Passes(k, d, s + t, stops)
  {
    FeedAppend(k, Out(d), s, t);
    QuietAppend(k, Out(d), s, t, d, stops);
  }

  // ---- The grammar ----

  predicate IsWs(c: char) {
    c == ' ' || c == '\t' || c == '\n' || c == '\r'
  }

  predicate Ws(s: string) {
    forall i :: 0 <= i < |s| ==> IsWs(s[i])
  }

  predicate Structural(c: char) {
    c in {'{', '}', '[', ']', ',', ':', '"', '\\'}
  }

  // Literal names and numbers; a superset of them, which only widens what is shown below.
  predicate IsScalar(s: string) {
    s != "" && forall i :: 0 <= i < |s| ==> !Structural(s[i]) && !IsWs(s[i])
  }

  predicate IsHex(c: char) {
    '0' <= c <= '9' || 'a' <= c <= 'f' || 'A' <= c <= 'F'
  }

  // The inside of a string literal: unescaped characters and escape sequences.
  predicate StringBody(s: string)
    decreases s
  {
    s == "" ||
    (s[0] >= ' ' && s[0] != '"' && s[0] != '\\' && StringBody(s[1..])) ||
    (|s| >= 2 && s[0] == '\\' && s[1] in {'"', '\\', '/', 'b', 'f', 'n', 'r', 't'} && StringBody(s[2..])) ||
    (|s| >= 6 && s[0] == '\\' && s[1] == 'u' && IsHex(s[2]) && IsHex(s[3]) && IsHex(s[4]) && IsHex(s[5]) &&
     StringBody(s[6..]))
  }

  predicate IsString(s: string) {
    |s| >= 2 && s[0] == '"' && s[|s| - 1] == '"' && StringBody(s[1..|s| - 1])
  }

  function Join(texts: seq<string>): string {
    if texts == [] then ""
    else if |texts| == 1 then texts[0]
    else texts[0] + "," + Join(texts[1..])
  }

  // A value with white space around it.
  ghost predicate IsElement(t: string, n: nat)
    decreases n, 1
  {
    exists before, core, after :: Ws(before) && Ws(after) && JsonText(core, n) && t == before + core + after
  }

  ghost predicate IsMember(t: string, n: nat)
    decreases n, 2
  {
    exists before, key, after, value ::
      Ws(before) && IsString(key) && Ws(after) && IsElement(value, n) && t == before + key + after + ":" + value
  }

  ghost predicate IsArrayOf(s: string, texts: seq<string>, n: nat)
    decreases n, 3
  {
    (forall i :: 0 <= i < |texts| ==> IsElement(texts[i], n)) &&
    exists pad :: Ws(pad) && (texts != [] ==> pad == "") && s == "[" + pad + Join(texts) + "]"
  }

  ghost predicate IsObjectOf(s: string, texts: seq<string>, n: nat)
    decreases n, 3
  {
    (forall i :: 0 <= i < |texts| ==> IsMember(texts[i], n)) &&
    exists pad :: Ws(pad) && (texts != [] ==> pad == "") && s == "{" + pad + Join(texts) + "}"
  }

  ghost predicate IsArray(s: string, n: nat)
    decreases n, 4
  {
    exists texts :: IsArrayOf(s, texts, n)
  }

  ghost predicate IsObject(s: string, n: nat)
    decreases n, 4
  {
    exists texts :: IsObjectOf(s, texts, n)
  }

  // A JSON value whose arrays and objects nest at most n deep.
  ghost predicate JsonText(s: string, n: nat)
    decreases n, 0
  {
    IsScalar(s) || IsString(s) || (n > 0 && (IsArray(s, n - 1) || IsObject(s, n - 1)))
  }

  // ---- What the scanner sees of a JSON text ----

  // Between values: the characters that can follow one.
  const DELIMITERS := {',', ':', ']', '}'}

  // Stops are only watched for when both kinds of brackets are counted.
  predicate Watched(k: Brackets, stops: set<char>) {
    stops == {} || (k == Both && stops <= DELIMITERS)
  }

  lemma {:induction false} NeutralPasses(k: Brackets, d: int, s: string, stops: set<char>)
    requires Watched(k, stops)
    requires forall i :: 0 <= i < |s| ==> !Structural(s[i])
    ensures Passes(k, d, s, stops)
    decreases s
  {
    if s != "" {
      assert forall i :: 0 <= i < |s| - 1 ==> s[1..][i] == s[i + 1];
      NeutralPasses(k, d, s[1..], stops);
      assert !Structural(s[0]);
    }
  }

  lemma {:induction false} BodyIsInside(k: Brackets, d: int, s: string, stops: set<char>)
    requires StringBody(s)
    ensures FeedAll(k, Scan(d, true, false), s) == Scan(d, true, false)
    ensures Quiet(k, Scan(d, true, false), s, d, stops)
    decreases s
  {
    var st := Scan(d, true, false);
    if s == "" {
    } else if s[0] != '\\' {
      BodyIsInside(k, d, s[1..], stops);
    } else if s[1] != 'u' {
      assert s[1..][1..] == s[2..];
      BodyIsInside(k, d, s[2..], stops);
    } else {
      BodyIsInside(k, d, s[6..], stops);
      var hex := s[2..6];
      HexIsInside(k, d, hex, s[6..], stops);
      assert s[2..] == hex + s[6..];
      assert s[1..][1..] == s[2..];
    }
  }

  lemma {:induction false} HexIsInside(k: Brackets, d: int, hex: string, rest: string, stops: set<char>)
    requires forall i :: 0 <= i < |hex| ==> IsHex(hex[i])
    ensures FeedAll(k, Scan(d, true, false), hex + rest) == FeedAll(k, Scan(d, true, false), rest)
    ensures Quiet(k, Scan(d, true, false), hex + rest, d, stops) == Quiet(k, Scan(d, true, false), rest, d, stops)
    decreases hex
  {
    if hex == "" {
      assert hex + rest == rest;
    } else {
      assert (hex + rest)[1..] == hex[1..] + rest;
      assert forall i :: 0 <= i < |hex| - 1 ==> hex[1..][i] == hex[i + 1];
      HexIsInside(k, d, hex[1..], rest, stops);
    }
  }

  lemma StringPasses(k: Brackets, d: int, s: string, stops: set<char>)
    requires IsString(s) && Watched(k, stops)
    ensures Passes(k, d, s, stops)
  {
    var body := s[1..|s| - 1];
    assert s == "\"" + (body + "\"");
    BodyIsInside(k, d, body, stops);
    FeedAppend(k, Scan(d, true, false), body, "\"");
    FeedOne(k, Scan(d, true, false), '"');
    assert "\""[1..] == "";
    QuietAppend(k, Scan(d, true, false), body, "\"", d, stops);
    assert s[1..] == body + "\"";
  }

  lemma {:induction false} JoinPasses(k: Brackets, d: int, texts: seq<string>)
    requires forall i :: 0 <= i < |texts| ==> Passes(k, d, texts[i], {})
    ensures Passes(k, d, Join(texts), {})
  {
    if |texts| > 1 {
      assert forall i :: 0 <= i < |texts| - 1 ==> texts[1..][i] == texts[i + 1];
      JoinPasses(k, d, texts[1..]);
      FeedOne(k, Out(d), ',');
      assert ","[1..] == "";
      PassesAppend(k, d, texts[0], ",", {});
      PassesAppend(k, d, texts[0] + ",", Join(texts[1..]), {});
    }
  }

  function Inner(k: Brackets, d: int, c: char): int {
    if Opens(k, c) then d + 1 else d
  }

  // A bracketed text passes if its inside passes one level up.
  lemma BracketsPass(k: Brackets, d: int, open: char, inside: string, close: char, stops: set<char>)
    requires (open == '[' && close == ']') || (open == '{' && close == '}')
    requires Watched(k, stops)
    requires Passes(k, Inner(k, d, open), inside, {})
    ensures Passes(k, d, [open] + inside + [close], stops)
  {
    var e := Inner(k, d, open);
    FeedOne(k, Out(d), open);
    FeedOne(k, Out(e), close);
    FeedAppend(k, Out(d), [open], inside);
    FeedAppend(k, Out(d), [open] + inside, [close]);
    if e > d { QuietBelow(k, Out(e), inside, e, d, {}, stops); }
    assert [open][1..] == "" && [close][1..] == "";
    QuietAppend(k, Out(d), [open], inside, d, stops);
    QuietAppend(k, Out(d), [open] + inside, [close], d, stops);
  }

  lemma WsPasses(k: Brackets, d: int, s: string, stops: set<char>)
    requires Ws(s) && Watched(k, stops)
    ensures Passes(k, d, s, stops)
  {
    assert forall i :: 0 <= i < |s| ==> !Structural(s[i]) by {
      forall i | 0 <= i < |s| ensures !Structural(s[i]) { assert IsWs(s[i]); }
    }
    NeutralPasses(k, d, s, stops);
  }

  lemma {:induction false} ElementPasses(k: Brackets, d: int, t: string, n: nat)
    requires IsElement(t, n)
    ensures Passes(k, d, t, {})
    decreases n, 1
  {
    var before, core, after :| Ws(before) && Ws(after) && JsonText(core, n) && t == before + core + after;
    WsPasses(k, d, before, {});
    WsPasses(k, d, after, {});
    ValuePasses(k, d, core, n, {});
    PassesAppend(k, d, before, core, {});
    PassesAppend(k, d, before + core, after, {});
  }

  lemma {:induction false} MemberPasses(k: Brackets, d: int, t: string, n: nat)
    requires IsMember(t, n)
    ensures Passes(k, d, t, {})
    decreases n, 2
  {
    var before, key, after, value :|
      Ws(before) && IsString(key) && Ws(after) && IsElement(value, n) && t == before + key + after + ":" + value;
    WsPasses(k, d, before, {});
    WsPasses(k, d, after, {});
    StringPasses(k, d, key, {});
    ElementPasses(k, d, value, n);
    FeedOne(k, Out(d), ':');
    assert ":"[1..] == "";
    PassesAppend(k, d, before, key, {});
    PassesAppend(k, d, before + key, after, {});
    PassesAppend(k, d, before + key + after, ":", {});
    PassesAppend(k, d, before + key + after + ":", value, {});
  }

  lemma InsidePasses(k: Brackets, d: int, pad: string, texts: seq<string>)
    requires Ws(pad) && forall i :: 0 <= i < |texts| ==> Passes(k, d, texts[i], {})
    ensures Passes(k, d, pad + Join(texts), {})
  {
    JoinPasses(k, d, texts);
    WsPasses(k, d, pad, {});
    PassesAppend(k, d, pad, Join(texts), {});
  }

  // The text between the brackets of an array passes on every level.
  lemma {:induction false} ArrayInside(k: Brackets, e: int, s: string, n: nat) returns (inside: string)
    requires IsArray(s, n)
    ensures s == ['['] + inside + [']'] && Passes(k, e, inside, {})
    decreases n, 4
  {
    var texts :| IsArrayOf(s, texts, n);
    var pad :| Ws(pad) && (texts != [] ==> pad == "") && s == "[" + pad + Join(texts) + "]";
    forall i | 0 <= i < |texts| ensures Passes(k, e, texts[i], {}) {
      ElementPasses(k, e, texts[i], n);
    }
    InsidePasses(k, e, pad, texts);
    inside := pad + Join(texts);
  }

  // Likewise for the text between the braces of an object.
  lemma {:induction false} ObjectInside(k: Brackets, e: int, s: string, n: nat) returns (inside: string)
    requires IsObject(s, n)
    ensures s == ['{'] + inside + ['}'] && Passes(k, e, inside, {})
    decreases n, 4
  {
    var texts :| IsObjectOf(s, texts, n);
    var pad :| Ws(pad) && (texts != [] ==> pad == "") && s == "{" + pad + Join(texts) + "}";
    forall i | 0 <= i < |texts| ensures Passes(k, e, texts[i], {}) {
      MemberPasses(k, e, texts[i], n);
    }
    InsidePasses(k, e, pad, texts);
    inside := pad + Join(texts);
  }

  /** The scanner comes out of every JSON value as it went in, having met no delimiter on its own level. */
  lemma {:induction false} ValuePasses(k: Brackets, d: int, s: string, n: nat, stops: set<char>)
    requires JsonText(s, n) && Watched(k, stops)
    ensures Passes(k, d, s, stops)
    decreases n, 0
  {
    if IsScalar(s) {
      NeutralPasses(k, d, s, stops);
    } else if IsString(s) {
      StringPasses(k, d, s, stops);
    } else if IsArray(s, n - 1) {
      var inside := ArrayInside(k, Inner(k, d, '['), s, n - 1);
      BracketsPass(k, d, '[', inside, ']', stops);
    } else {
      var inside := ObjectInside(k, Inner(k, d, '{'), s, n - 1);
      BracketsPass(k, d, '{', inside, '}', stops);
    }
  }

  // ---- Unique readability ----

  predicate Follows(x: string, stops: set<char>) {
    x == "" || x[0] in stops
  }

  lemma NotShorter(s: string, x: string, t: string, y: string, stops: set<char>)
    requires Passes(Both, 0, s, stops) && Passes(Both, 0, t, stops)
    requires Follows(x, stops) && s + x == t + y
    ensures |s| >= |t|
  {
    var whole := s + x;
    if |s| < |t| {
      assert s == whole[..|s|] == t[..|s|];
      assert t[|s|] == (t + y)[|s|] == whole[|s|] == x[0];
      QuietAt(Both, Out(0), t, 0, stops, |s|);
      assert false;
    }
  }

  /** Two clean texts in front of delimiters are read back the same way. */
  lemma Cancellation(s: string, x: string, t: string, y: string, stops: set<char>)
    requires Passes(Both, 0, s, stops) && Passes(Both, 0, t, stops)
    requires Follows(x, stops) && Follows(y, stops)
    requires s + x == t + y
    ensures s == t && x == y
  {
    NotShorter(s, x, t, y, stops);
    NotShorter(t, y, s, x, stops);
    var whole := s + x;
    assert s == whole[..|s|] && t == whole[..|t|];
    assert x == whole[|s|..] && y == whole[|t|..];
  }

  predicate CleanItems(texts: seq<string>, stops: set<char>) {
    forall i :: 0 <= i < |texts| ==> texts[i] != "" && texts[i][0] !in stops && Passes(Both, 0, texts[i], stops)
  }

  // What follows the first item of a list.
  function AfterFirst(a: seq<string>, x: string): string
    requires a != []
  {
    if |a| == 1 then x else "," + (Join(a[1..]) + x)
  }

  lemma Reassociate(a: string, c: string, j: string, x: string)
    ensures a + c + j + x == a + (c + (j + x))
  {
  }

  lemma FirstItem(a: seq<string>, x: string)
    requires a != []
    ensures Join(a) + x == a[0] + AfterFirst(a, x)
    ensures a[0] != "" ==> Join(a) + x != "" && (Join(a) + x)[0] == a[0][0]
  {
    var whole := Join(a) + x;
    if |a| > 1 { Reassociate(a[0], ",", Join(a[1..]), x); }
    assert whole == a[0] + AfterFirst(a, x);
  }

  lemma CleanTail(a: seq<string>, stops: set<char>)
    requires CleanItems(a, stops) && a != []
    ensures CleanItems(a[1..], stops)
  {
    assert forall i :: 0 <= i < |a| - 1 ==> a[1..][i] == a[i + 1];
  }

  // The first items agree, and so does what follows them.
  lemma FirstItemsAgree(a: seq<string>, x: string, b: seq<string>, y: string, stops: set<char>)
    requires ',' in stops && CleanItems(a, stops) && CleanItems(b, stops) && a != [] && b != []
    requires x != "" && y != "" && x[0] in stops - {','} && y[0] in stops - {','}
    requires Join(a) + x == Join(b) + y
    ensures a[0] == b[0] && (|a| == 1 <==> |b| == 1)
    ensures if |a| == 1 then x == y else Join(a[1..]) + x == Join(b[1..]) + y
  {
    FirstItem(a, x);
    FirstItem(b, y);
    var restA, restB := AfterFirst(a, x), AfterFirst(b, y);
    Cancellation(a[0], restA, b[0], restB, stops);
    assert restA[0] == restB[0];
    if |a| > 1 && |b| > 1 {
      assert restA[1..] == Join(a[1..]) + x && restB[1..] == Join(b[1..]) + y;
    }
  }

  /** A comma-separated list of clean texts is read back item by item. */
  lemma {:induction false} JoinReadable(a: seq<string>, x: string, b: seq<string>, y: string, stops: set<char>)
    requires ',' in stops && CleanItems(a, stops) && CleanItems(b, stops)
    requires x != "" && y != "" && x[0] in stops - {','} && y[0] in stops - {','}
    requires Join(a) + x == Join(b) + y
    ensures a == b && x == y
  {
    assert Join([]) + x == x && Join([]) + y == y;
    if a == [] {
      if b != [] {
        FirstItem(b, y);
        assert false;
      }
    } else if b == [] {
      FirstItem(a, x);
      assert false;
    } else {
      FirstItemsAgree(a, x, b, y, stops);
      if |a| > 1 {
        CleanTail(a, stops);
        CleanTail(b, stops);
        JoinReadable(a[1..], x, b[1..], y, stops);
      }
      assert a == [a[0]] + a[1..] && b == [b[0]] + b[1..];
    }
  }

  // ---- What the scanner counts ----

  // A text as it is read: characters outside string literals, and string literals piece by piece.
  datatype Piece = Bare(c: char) | Escaped(c: char)
  datatype Token = Plain(c: char) | Quoted(body: seq<Piece>)

  function PieceText(p: Piece): string {
    match p case Bare(c) => [c] case Escaped(c) => ['\\', c]
  }

  function BodyText(body: seq<Piece>): string {
    if body == [] then "" else PieceText(body[0]) + BodyText(body[1..])
  }

  function TokenText(t: Token): string {
    match t case Plain(c) => [c] case Quoted(body) => "\"" + BodyText(body) + "\""
  }

  function TokensText(tokens: seq<Token>): string {
    if tokens == [] then "" else TokenText(tokens[0]) + TokensText(tokens[1..])
  }

  // Only a quote opens a literal, and only a bare quote closes one.
  predicate IsBody(body: seq<Piece>) {
    forall i :: 0 <= i < |body| && body[i].Bare? ==> body[i].c != '"' && body[i].c != '\\'
  }

  predicate AreTokens(tokens: seq<Token>) {
    forall i :: 0 <= i < |tokens| ==>
      match tokens[i] case Plain(c) => c != '"' case Quoted(body) => IsBody(body)
  }

  // Opening less closing brackets outside literals.
  function Balance(k: Brackets, tokens: seq<Token>): int {
    if tokens == [] then 0
    else
      var one :=
        match tokens[0]
        case Quoted(_) => 0
        case Plain(c) =>
          if (c == '{' && k != Squares) || (c == '[' && k != Braces) then 1
          else if (c == '}' && k != Squares) || (c == ']' && k != Braces) then -1
          else 0;
      one + Balance(k, tokens[1..])
  }

  lemma {:induction false} BodyIsSkipped(k: Brackets, d: int, body: seq<Piece>)
    requires IsBody(body)
    ensures FeedAll(k, Scan(d, true, false), BodyText(body)) == Scan(d, true, false)
  {
    if body != [] {
      var st := Scan(d, true, false);
      FeedAppend(k, st, PieceText(body[0]), BodyText(body[1..]));
      PieceIsSkipped(k, d, body[0]);
      assert forall i :: 0 <= i < |body| - 1 ==> body[1..][i] == body[i + 1];
      BodyIsSkipped(k, d, body[1..]);
    }
  }

  lemma PieceIsSkipped(k: Brackets, d: int, p: Piece)
    requires p.Bare? ==> p.c != '"' && p.c != '\\'
    ensures FeedAll(k, Scan(d, true, false), PieceText(p)) == Scan(d, true, false)
  {
    var st := Scan(d, true, false);
    match p
    case Bare(c) => FeedOne(k, st, c);
    case Escaped(c) =>
      assert PieceText(p)[1..] == [c];
      FeedOne(k, Feed(k, st, '\\'), c);
  }

  lemma LiteralIsSkipped(k: Brackets, d: int, body: seq<Piece>)
    requires IsBody(body)
    ensures FeedAll(k, Out(d), "\"" + BodyText(body) + "\"") == Out(d)
  {
    BodyIsSkipped(k, d, body);
    FeedAppend(k, Out(d), "\"", BodyText(body));
    FeedAppend(k, Out(d), "\"" + BodyText(body), "\"");
    FeedOne(k, Out(d), '"');
    FeedOne(k, Scan(d, true, false), '"');
  }

  /**
    What the scanner counts in any text: the brackets of its kinds outside string literals, a backslash being of
    account inside a literal only.
  */
  lemma {:induction false} ScannerCountsOutside(k: Brackets, d: int, tokens: seq<Token>)
    requires AreTokens(tokens)
    ensures FeedAll(k, Out(d), TokensText(tokens)) == Out(d + Balance(k, tokens))
    decreases tokens
  {
    if tokens != [] {
      var t := tokens[0];
      FeedAppend(k, Out(d), TokenText(t), TokensText(tokens[1..]));
      assert forall i :: 0 <= i < |tokens| - 1 ==> tokens[1..][i] == tokens[i + 1];
      match t {
        case Plain(c) => FeedOne(k, Out(d), c);
        case Quoted(body) => LiteralIsSkipped(k, d, body);
      }
      assert FeedAll(k, Out(d), TokenText(t)).depth - d == Balance(k, tokens) - Balance(k, tokens[1..]);
      ScannerCountsOutside(k, FeedAll(k, Out(d), TokenText(t)).depth, tokens[1..]);
    }
  }

  /** Inside a literal that has not ended nothing is counted. */
  lemma UnendedLiteralCounts(k: Brackets, d: int, tokens: seq<Token>, body: seq<Piece>)
    requires AreTokens(tokens) && IsBody(body)
    ensures FeedAll(k, Out(d), TokensText(tokens) + ("\"" + BodyText(body))) ==
            Scan(d + Balance(k, tokens), true, false)
  {
    var e := d + Balance(k, tokens);
    ScannerCountsOutside(k, d, tokens);
    FeedAppend(k, Out(d), TokensText(tokens), "\"" + BodyText(body));
    OpenLiteral(k, e, body);
  }

  lemma OpenLiteral(k: Brackets, d: int, body: seq<Piece>)
    requires IsBody(body)
    ensures FeedAll(k, Out(d), "\"" + BodyText(body)) == Scan(d, true, false)
  {
    FeedAppend(k, Out(d), "\"", BodyText(body));
    FeedOne(k, Out(d), '"');
    BodyIsSkipped(k, d, body);
  }
}
