/** What a JSON text denotes, told from its syntax, and that canonical text denotes what its value means. */
module JsonMeaning {
  import opened Wrappers
  import opened Utf8
  import opened JsonScan
  import opened CanonicalJson

  // ---- Syntax trees (RFC 8259, sections 2 to 7) ----

  // A name or number, a string literal by its inside, an array, an object; white space where it stands.
  datatype Syntax =
    | Scalar(text: string)
    | Literal(body: string)
    | List(pad: string, items: seq<Padded>)
    | Record(pad: string, members: seq<Member>)

  datatype Padded = Padded(before: string, core: Syntax, after: string)

  datatype Member = Member(before: string, key: string, after: string, value: Padded)

  function Print(t: Syntax): string
    decreases t
  {
    match t
    case Scalar(text) => text
    case Literal(body) => "\"" + body + "\""
    case List(pad, items) =>
      "[" + pad + Join(seq(|items|, i requires 0 <= i < |items| => PrintPadded(items[i]))) + "]"
    case Record(pad, members) =>
      "{" + pad + Join(seq(|members|, i requires 0 <= i < |members| => PrintMember(members[i]))) + "}"
  }

  function PrintPadded(p: Padded): string
    decreases p
  {
    p.before + Print(p.core) + p.after
  }

  function PrintMember(m: Member): string
    decreases m
  {
    m.before + ("\"" + m.key + "\"") + m.after + ":" + PrintPadded(m.value)
  }

  predicate Valid(t: Syntax)
    decreases t
  {
    match t
    case Scalar(text) => IsScalar(text)
    case Literal(body) => Unescaped(body).Some?
    case List(pad, items) =>
      Ws(pad) && (items != [] ==> pad == "") && forall i :: 0 <= i < |items| ==> ValidPadded(items[i])
    case Record(pad, members) =>
      Ws(pad) && (members != [] ==> pad == "") && forall i :: 0 <= i < |members| ==> ValidMember(members[i])
  }

  predicate ValidPadded(p: Padded)
    decreases p
  {
    Ws(p.before) && Valid(p.core) && Ws(p.after)
  }

  predicate ValidMember(m: Member)
    decreases m
  {
    Ws(m.before) && Unescaped(m.key).Some? && Ws(m.after) && ValidPadded(m.value)
  }

  // ---- The string inside a literal (section 7) ----

  function HexValue(c: char): (n: nat)
    requires IsHex(c)
    ensures n < 16
  {
    if c <= '9' then c as int - '0' as int
    else if c <= 'F' then c as int - 'A' as int + 10
    else c as int - 'a' as int + 10
  }

  // The code unit that four hex digits from position i on spell.
  function UnitAt(s: string, i: nat): Option<nat> {
    if i + 4 <= |s| && IsHex(s[i]) && IsHex(s[i + 1]) && IsHex(s[i + 2]) && IsHex(s[i + 3]) then
      Some(4096 * HexValue(s[i]) + 256 * HexValue(s[i + 1]) + 16 * HexValue(s[i + 2]) + HexValue(s[i + 3]))
    else None
  }

  function ShortEscape(c: char): Option<char> {
    match c
    case '"' => Some('"')
    case '\\' => Some('\\')
    case '/' => Some('/')
    case 'b' => Some(8 as char)
    case 'f' => Some(12 as char)
    case 'n' => Some(10 as char)
    case 'r' => Some(13 as char)
    case 't' => Some(9 as char)
    case _ => None
  }

  // The character that two surrogate code units stand for together.
  function Paired(high: nat, low: nat): Option<char> {
    if 0xD800 <= high < 0xDC00 && 0xDC00 <= low < 0xE000
    then Some((0x1_0000 + (high - 0xD800) * 0x400 + (low - 0xDC00)) as char) else None
  }

  // The first character spelled, and how long its spelling is.
  function FirstSpelled(s: string): (r: Option<(char, nat)>)
    ensures r.Some? ==> 1 <= r.value.1 <= |s|
  {
    if s == "" then None
    else if s[0] != '\\' then if s[0] >= ' ' && s[0] != '"' then Some((s[0], 1)) else None
    else if |s| < 2 then None
    else if ShortEscape(s[1]).Some? then Some((ShortEscape(s[1]).value, 2))
    else if s[1] != 'u' || UnitAt(s, 2).None? then None
    else
      var unit := UnitAt(s, 2).value;
      if unit < 0xD800 || 0xE000 <= unit < 0x1_0000 then Some((unit as char, 6))
      else if |s| >= 12 && s[6] == '\\' && s[7] == 'u' && UnitAt(s, 8).Some? && Paired(unit, UnitAt(s, 8).value).Some?
      then Some((Paired(unit, UnitAt(s, 8).value).value, 12))
      else None
  }

  // None for a lone surrogate, which spells no character.
  function Unescaped(body: string): Option<string>
    decreases |body|
  {
    if body == "" then Some("")
    else
      match FirstSpelled(body)
      case None => None
      case Some((c, n)) =>
        match Unescaped(body[n..])
        case None => None
        case Some(rest) => Some([c] + rest)
  }

  // ---- What it denotes ----

  function ScalarMeaning(text: string): Meaning {
    if text == "null" then MNull
    else if text == "true" then MBool(true)
    else if text == "false" then MBool(false)
    else MNum(text)
  }

  // Where each key occurs last.
  function LastIndex(keys: seq<string>): (m: map<string, nat>)
    ensures forall k :: k in m ==> m[k] < |keys| && keys[m[k]] == k
    ensures forall i :: 0 <= i < |keys| ==> keys[i] in m && i <= m[keys[i]]
  {
    if keys == [] then map[]
    else
      var n := |keys| - 1;
      LastIndex(keys[..n])[keys[n] := n]
  }

  function KeysOf(members: seq<Member>): (r: seq<string>)
    ensures |r| == |members| && forall i :: 0 <= i < |r| ==> r[i] == Unescaped(members[i].key).GetOr("")
  {
    seq(|members|, i requires 0 <= i < |members| => Unescaped(members[i].key).GetOr(""))
  }

  // Strings by their words, arrays without order, of equal keys the last.
  function Meant(t: Syntax): Meaning
    decreases t
  {
    match t
    case Scalar(text) => ScalarMeaning(text)
    case Literal(body) => MStr(Words(Unescaped(body).GetOr("")))
    case List(_, items) => MArr(multiset(seq(|items|, i requires 0 <= i < |items| => Meant(items[i].core))))
    case Record(_, members) =>
      var last := LastIndex(KeysOf(members));
      MObj(map k | k in last :: Meant(members[last[k]].value.core))
  }

  ghost predicate Denotes(text: string, m: Meaning) {
    exists t :: Valid(t) && Print(t) == text && Meant(t) == m
  }

  // ---- A syntax tree prints a JSON text ----

  function ItemTexts(items: seq<Padded>): (r: seq<string>)
    ensures |r| == |items| && forall i :: 0 <= i < |r| ==> r[i] == PrintPadded(items[i])
  {
    seq(|items|, i requires 0 <= i < |items| => PrintPadded(items[i]))
  }

  function MemberTexts(members: seq<Member>): (r: seq<string>)
    ensures |r| == |members| && forall i :: 0 <= i < |r| ==> r[i] == PrintMember(members[i])
  {
    seq(|members|, i requires 0 <= i < |members| => PrintMember(members[i]))
  }

  lemma PrintList(pad: string, items: seq<Padded>)
    ensures Print(List(pad, items)) == "[" + pad + Join(ItemTexts(items)) + "]"
  {
    assert ItemTexts(items) == seq(|items|, i requires 0 <= i < |items| => PrintPadded(items[i]));
  }

  lemma PrintRecord(pad: string, members: seq<Member>)
    ensures Print(Record(pad, members)) == "{" + pad + Join(MemberTexts(members)) + "}"
  {
    assert MemberTexts(members) == seq(|members|, i requires 0 <= i < |members| => PrintMember(members[i]));
  }

  lemma {:induction false} UnescapedIsBody(body: string)
    requires Unescaped(body).Some?
    ensures StringBody(body)
    decreases |body|
  {
    if body != "" {
      var n := FirstSpelled(body).value.1;
      UnescapedIsBody(body[n..]);
      if n == 12 { assert StringBody(body[6..]) by { assert body[6..][6..] == body[12..]; } }
    }
  }

  lemma LiteralIsString(body: string)
    requires Unescaped(body).Some?
    ensures IsString("\"" + body + "\"")
  {
    UnescapedIsBody(body);
    assert ("\"" + body + "\"")[1..|body| + 1] == body;
  }

  function Depth(t: Syntax): nat
    decreases t
  {
    match t
    case List(_, items) => 1 + Max(seq(|items|, i requires 0 <= i < |items| => Depth(items[i].core)))
    case Record(_, members) => 1 + Max(seq(|members|, i requires 0 <= i < |members| => Depth(members[i].value.core)))
    case _ => 0
  }

  lemma InnerIsLower(t: Syntax, i: nat)
    ensures t.List? && i < |t.items| ==> Depth(t.items[i].core) < Depth(t)
    ensures t.Record? && i < |t.members| ==> Depth(t.members[i].value.core) < Depth(t)
  {
    if t.List? && i < |t.items| {
      var depths := seq(|t.items|, i requires 0 <= i < |t.items| => Depth(t.items[i].core));
      assert depths[i] <= Max(depths);
    }
    if t.Record? && i < |t.members| {
      var depths := seq(|t.members|, i requires 0 <= i < |t.members| => Depth(t.members[i].value.core));
      assert depths[i] <= Max(depths);
    }
  }

  lemma PaddedIsElement(p: Padded, n: nat)
    requires Ws(p.before) && Ws(p.after) && JsonText(Print(p.core), n)
    ensures IsElement(PrintPadded(p), n)
  {
  }

  lemma PrintedIsMember(m: Member, n: nat)
    requires Ws(m.before) && Ws(m.after) && Unescaped(m.key).Some? && IsElement(PrintPadded(m.value), n)
    ensures IsMember(PrintMember(m), n)
  {
    LiteralIsString(m.key);
  }

  /** What a syntax tree prints is a JSON text. */
  lemma {:induction false} PrintedIsJson(t: Syntax)
    requires Valid(t)
    ensures JsonText(Print(t), Depth(t))
    decreases t
  {
    var n := Depth(t) - 1;
    match t {
      case Scalar(text) =>
      case Literal(body) => LiteralIsString(body);
      case List(pad, items) =>
        forall i | 0 <= i < |items| ensures IsElement(ItemTexts(items)[i], n) {
          assert ValidPadded(items[i]);
          InnerIsLower(t, i);
          PrintedIsJson(items[i].core);
          DeeperIsFine(Print(items[i].core), Depth(items[i].core), n);
          PaddedIsElement(items[i], n);
        }
        PrintList(pad, items);
        ElementsMakeAnArray(Print(t), pad, ItemTexts(items), n);
      case Record(pad, members) =>
        forall i | 0 <= i < |members| ensures IsMember(MemberTexts(members)[i], n) {
          assert ValidMember(members[i]);
          assert ValidPadded(members[i].value);
          InnerIsLower(t, i);
          PrintedIsJson(members[i].value.core);
          DeeperIsFine(Print(members[i].value.core), Depth(members[i].value.core), n);
          PaddedIsElement(members[i].value, n);
          PrintedIsMember(members[i], n);
        }
        PrintRecord(pad, members);
        MembersMakeARecord(Print(t), pad, MemberTexts(members), n);
    }
  }

  lemma ElementsMakeAnArray(s: string, pad: string, texts: seq<string>, n: nat)
    requires forall i :: 0 <= i < |texts| ==> IsElement(texts[i], n)
    requires Ws(pad) && (texts != [] ==> pad == "") && s == "[" + pad + Join(texts) + "]"
    ensures JsonText(s, n + 1)
  {
    assert IsArrayOf(s, texts, n);
    assert IsArray(s, n);
  }

  lemma MembersMakeARecord(s: string, pad: string, texts: seq<string>, n: nat)
    requires forall i :: 0 <= i < |texts| ==> IsMember(texts[i], n)
    requires Ws(pad) && (texts != [] ==> pad == "") && s == "{" + pad + Join(texts) + "}"
    ensures JsonText(s, n + 1)
  {
    assert IsObjectOf(s, texts, n);
    assert IsObject(s, n);
  }

  // ---- A JSON text has one syntax tree ----

  predicate Solid(s: string) {
    s != "" && !IsWs(s[0]) && !IsWs(s[|s| - 1])
  }

  lemma PrintedIsSolid(t: Syntax)
    requires Valid(t)
    ensures Solid(Print(t))
    ensures match t
            case Scalar(_) => !Structural(Print(t)[0])
            case Literal(_) => Print(t)[0] == '"'
            case List(_, _) => Print(t)[0] == '['
            case Record(_, _) => Print(t)[0] == '{'
  {
    match t
    case Scalar(text) => assert !IsWs(text[0]) && !IsWs(text[|text| - 1]) && !Structural(text[0]);
    case Literal(_) =>
    case List(pad, items) => PrintList(pad, items);
    case Record(pad, members) => PrintRecord(pad, members);
  }

  // Where the white space in front of something solid ends.
  lemma WsEnds(before: string, x: string, other: string, y: string)
    requires Ws(before) && Ws(other) && before + x == other + y
    requires x != "" && y != "" && !IsWs(x[0]) && !IsWs(y[0])
    ensures before == other && x == y
  {
    var whole := before + x;
    assert whole[|before|] == x[0] && whole[|other|] == y[0];
    assert |before| == |other|;
    assert before == whole[..|before|] && other == whole[..|other|];
    assert x == whole[|before|..] && y == whole[|other|..];
  }

  // Where the white space behind something solid begins.
  lemma WsBegins(x: string, after: string, y: string, other: string)
    requires Ws(after) && Ws(other) && x + after == y + other
    requires x != "" && y != "" && !IsWs(x[|x| - 1]) && !IsWs(y[|y| - 1])
    ensures x == y && after == other
  {
    var whole := x + after;
    assert whole[|x| - 1] == x[|x| - 1] && whole[|y| - 1] == y[|y| - 1];
    assert |x| == |y|;
    assert x == whole[..|x|] && y == whole[..|y|];
    assert after == whole[|x|..] && other == whole[|y|..];
  }

  lemma PaddedReadable(p: Padded, q: Padded)
    requires ValidPadded(p) && ValidPadded(q) && PrintPadded(p) == PrintPadded(q)
    ensures p.before == q.before && Print(p.core) == Print(q.core) && p.after == q.after
  {
    PrintedIsSolid(p.core);
    PrintedIsSolid(q.core);
    var x, y := Print(p.core), Print(q.core);
    assert p.before + x + p.after == p.before + (x + p.after);
    assert q.before + y + q.after == q.before + (y + q.after);
    WsEnds(p.before, x + p.after, q.before, y + q.after);
    WsBegins(x, p.after, y, q.after);
  }

  lemma MemberReadable(m: Member, l: Member)
    requires ValidMember(m) && ValidMember(l) && PrintMember(m) == PrintMember(l)
    ensures m.before == l.before && m.key == l.key && m.after == l.after && PrintPadded(m.value) == PrintPadded(l.value)
  {
    var k, j := "\"" + m.key + "\"", "\"" + l.key + "\"";
    var x, y := ":" + PrintPadded(m.value), ":" + PrintPadded(l.value);
    assert PrintMember(m) == m.before + (k + (m.after + x));
    assert PrintMember(l) == l.before + (j + (l.after + y));
    WsEnds(m.before, k + (m.after + x), l.before, j + (l.after + y));
    KeysReadable(m.key, m.after + x, l.key, l.after + y);
    WsEnds(m.after, x, l.after, y);
    assert x[1..] == PrintPadded(m.value) && y[1..] == PrintPadded(l.value);
  }

  // What comes behind does not change how the first character is spelled.
  lemma SpelledInFront(s: string, x: string)
    requires FirstSpelled(s).Some?
    ensures FirstSpelled(s + x) == FirstSpelled(s)
  {
    UnitInFront(s, x, 2);
    UnitInFront(s, x, 8);
  }

  lemma UnitInFront(s: string, x: string, i: nat)
    ensures UnitAt(s, i).Some? ==> UnitAt(s + x, i) == UnitAt(s, i)
  {
  }

  lemma NothingSpelled(x: string)
    requires x != "" && x[0] == '"'
    ensures FirstSpelled(x).None? && FirstSpelled("" + x).None?
  {
    assert "" + x == x;
  }

  lemma SplitAt(k: string, x: string, j: string, y: string, n: nat)
    requires n <= |k| && n <= |j| && k + x == j + y
    ensures k[..n] == j[..n] && k[n..] + x == j[n..] + y
    ensures k[n..] == j[n..] ==> k == j
  {
    assert (k + x)[..n] == k[..n] && (j + y)[..n] == j[..n];
    assert (k + x)[n..] == k[n..] + x && (j + y)[n..] == j[n..] + y;
    assert k == k[..n] + k[n..] && j == j[..n] + j[n..];
  }

  lemma {:induction false} BodyReadable(k: string, x: string, j: string, y: string)
    requires Unescaped(k).Some? && Unescaped(j).Some?
    requires x != "" && y != "" && x[0] == '"' && y[0] == '"' && k + x == j + y
    ensures k == j && x == y
    decreases |k|
  {
    NothingSpelled(x);
    NothingSpelled(y);
    if k != "" { SpelledInFront(k, x); }
    if j != "" { SpelledInFront(j, y); }
    if k != "" && j != "" {
      var n := FirstSpelled(k).value.1;
      SplitAt(k, x, j, y, n);
      BodyReadable(k[n..], x, j[n..], y);
    } else {
      assert "" + x == x && "" + y == y;
    }
  }

  // A key ends at its closing quote.
  lemma KeysReadable(k: string, x: string, j: string, y: string)
    requires Unescaped(k).Some? && Unescaped(j).Some? && ("\"" + k + "\"") + x == ("\"" + j + "\"") + y
    ensures k == j && x == y
  {
    assert (("\"" + k + "\"") + x)[1..] == k + ("\"" + x);
    assert (("\"" + j + "\"") + y)[1..] == j + ("\"" + y);
    BodyReadable(k, "\"" + x, j, "\"" + y);
    assert ("\"" + x)[1..] == x && ("\"" + y)[1..] == y;
  }

  lemma ItemIsClean(p: Padded)
    requires ValidPadded(p)
    ensures CleanItems([PrintPadded(p)], {',', ']'})
  {
    var stops := {',', ']'};
    PrintedIsSolid(p.core);
    PrintedIsJson(p.core);
    ValuePasses(Both, 0, Print(p.core), Depth(p.core), stops);
    WsPasses(Both, 0, p.before, stops);
    WsPasses(Both, 0, p.after, stops);
    PassesAppend(Both, 0, p.before, Print(p.core), stops);
    PassesAppend(Both, 0, p.before + Print(p.core), p.after, stops);
    FirstOf(p.before, Print(p.core), p.after);
  }

  lemma FirstOf(before: string, x: string, after: string)
    requires Ws(before) && x != ""
    ensures var s := before + x + after; s != "" && (IsWs(s[0]) || s[0] == x[0])
  {
  }

  lemma MemberIsClean(m: Member)
    requires ValidMember(m)
    ensures CleanItems([PrintMember(m)], {',', '}'})
  {
    var stops := {',', '}'};
    var key := "\"" + m.key + "\"";
    LiteralIsString(m.key);
    StringPasses(Both, 0, key, stops);
    WsPasses(Both, 0, m.before, stops);
    WsPasses(Both, 0, m.after, stops);
    FeedOne(Both, Out(0), ':');
    assert ":"[1..] == "";
    PassesAppend(Both, 0, m.before, key, stops);
    PassesAppend(Both, 0, m.before + key, m.after, stops);
    PassesAppend(Both, 0, m.before + key + m.after, ":", stops);
    PaddedPasses(m.value, stops);
    PassesAppend(Both, 0, m.before + key + m.after + ":", PrintPadded(m.value), stops);
    FirstOf(m.before, key, m.after + ":" + PrintPadded(m.value));
    assert PrintMember(m)[0] == (m.before + key)[0];
  }

  lemma PaddedPasses(p: Padded, stops: set<char>)
    requires ValidPadded(p) && stops <= DELIMITERS
    ensures Passes(Both, 0, PrintPadded(p), stops)
  {
    PrintedIsJson(p.core);
    ValuePasses(Both, 0, Print(p.core), Depth(p.core), stops);
    WsPasses(Both, 0, p.before, stops);
    WsPasses(Both, 0, p.after, stops);
    PassesAppend(Both, 0, p.before, Print(p.core), stops);
    PassesAppend(Both, 0, p.before + Print(p.core), p.after, stops);
  }

  lemma ItemsAreClean(items: seq<Padded>)
    requires forall i :: 0 <= i < |items| ==> ValidPadded(items[i])
    ensures CleanItems(ItemTexts(items), {',', ']'})
  {
    forall i | 0 <= i < |items| ensures CleanItems([ItemTexts(items)[i]], {',', ']'}) { ItemIsClean(items[i]); }
    forall i | 0 <= i < |items|
      ensures var t := ItemTexts(items)[i]; t != "" && t[0] !in {',', ']'} && Passes(Both, 0, t, {',', ']'})
    {
      assert CleanItems([ItemTexts(items)[i]], {',', ']'});
      assert [ItemTexts(items)[i]][0] == ItemTexts(items)[i];
    }
  }

  lemma MembersAreClean(members: seq<Member>)
    requires forall i :: 0 <= i < |members| ==> ValidMember(members[i])
    ensures CleanItems(MemberTexts(members), {',', '}'})
  {
    forall i | 0 <= i < |members|
      ensures var t := MemberTexts(members)[i]; t != "" && t[0] !in {',', '}'} && Passes(Both, 0, t, {',', '}'})
    {
      MemberIsClean(members[i]);
      assert [MemberTexts(members)[i]][0] == MemberTexts(members)[i];
    }
  }

  // With nothing between the brackets but white space, and with items.
  lemma SameInside(pad: string, texts: seq<string>, pad': string, texts': seq<string>, close: string, stops: set<char>)
    requires Ws(pad) && (texts != [] ==> pad == "") && Ws(pad') && (texts' != [] ==> pad' == "")
    requires ',' in stops && close != "" && close[0] in stops - {','} && !IsWs(close[0])
    requires CleanItems(texts, stops) && CleanItems(texts', stops)
    requires (forall i :: 0 <= i < |texts| ==> HasInk(texts[i])) &&
             (forall i :: 0 <= i < |texts'| ==> HasInk(texts'[i]))
    requires pad + Join(texts) + close == pad' + Join(texts') + close
    ensures pad == pad' && texts == texts'
  {
    if texts != [] { FirstHasInk(texts); }
    if texts' != [] { FirstHasInk(texts'); }
    var inside, inside' := pad + Join(texts), pad' + Join(texts');
    assert inside == (inside + close)[..|inside + close| - |close|];
    assert inside' == (inside' + close)[..|inside' + close| - |close|];
    assert inside == inside';
    assert (texts == [] ==> inside == pad) && (texts != [] ==> inside == Join(texts));
    assert (texts' == [] ==> inside' == pad') && (texts' != [] ==> inside' == Join(texts'));
    assert texts == [] <==> texts' == [];
    if texts != [] { JoinReadable(texts, close, texts', close, stops); }
  }

  predicate HasInk(s: string) {
    exists i :: 0 <= i < |s| && !IsWs(s[i])
  }

  lemma FirstHasInk(texts: seq<string>)
    requires texts != [] && HasInk(texts[0])
    ensures HasInk(Join(texts)) && !Ws(Join(texts))
  {
    var i :| 0 <= i < |texts[0]| && !IsWs(texts[0][i]);
    assert Join(texts)[i] == texts[0][i];
  }

  lemma PaddedHasInk(p: Padded)
    requires ValidPadded(p)
    ensures HasInk(PrintPadded(p))
  {
    PrintedIsSolid(p.core);
    assert PrintPadded(p)[|p.before|] == Print(p.core)[0];
  }

  lemma MemberHasInk(m: Member)
    ensures HasInk(PrintMember(m))
  {
    assert PrintMember(m)[|m.before|] == '"';
  }

  lemma SameBehindOpening(open: string, pad: string, inside: string, pad': string, inside': string, close: string)
    requires |open| == 1 && open + pad + inside + close == open + pad' + inside' + close
    ensures pad + inside + close == pad' + inside' + close
  {
    Unwrap(open, pad + inside, close);
    Unwrap(open, pad' + inside', close);
    assert open + pad + inside == open + (pad + inside) && open + pad' + inside' == open + (pad' + inside');
  }

  lemma ListsReadable(pad: string, items: seq<Padded>, pad': string, items': seq<Padded>)
    requires Valid(List(pad, items)) && Valid(List(pad', items'))
    requires Print(List(pad, items)) == Print(List(pad', items'))
    ensures pad == pad' && ItemTexts(items) == ItemTexts(items')
  {
    PrintList(pad, items);
    PrintList(pad', items');
    ItemsAreClean(items);
    ItemsAreClean(items');
    forall i | 0 <= i < |items| ensures HasInk(ItemTexts(items)[i]) { PaddedHasInk(items[i]); }
    forall i | 0 <= i < |items'| ensures HasInk(ItemTexts(items')[i]) { PaddedHasInk(items'[i]); }
    SameBehindOpening("[", pad, Join(ItemTexts(items)), pad', Join(ItemTexts(items')), "]");
    SameInside(pad, ItemTexts(items), pad', ItemTexts(items'), "]", {',', ']'});
  }

  lemma MembersHaveInk(members: seq<Member>)
    ensures forall i :: 0 <= i < |members| ==> HasInk(MemberTexts(members)[i])
  {
    forall i | 0 <= i < |members| ensures HasInk(MemberTexts(members)[i]) { MemberHasInk(members[i]); }
  }

  lemma RecordsReadable(pad: string, members: seq<Member>, pad': string, members': seq<Member>)
    requires Valid(Record(pad, members)) && Valid(Record(pad', members'))
    requires Print(Record(pad, members)) == Print(Record(pad', members'))
    ensures pad == pad' && MemberTexts(members) == MemberTexts(members')
  {
    PrintRecord(pad, members);
    PrintRecord(pad', members');
    MembersAreClean(members);
    MembersAreClean(members');
    MembersHaveInk(members);
    MembersHaveInk(members');
    SameBehindOpening("{", pad, Join(MemberTexts(members)), pad', Join(MemberTexts(members')), "}");
    SameInside(pad, MemberTexts(members), pad', MemberTexts(members'), "}", {',', '}'});
  }

  /** The grammar is unambiguous: a text has one syntax tree. */
  lemma {:induction false} OneSyntaxTree(t: Syntax, u: Syntax)
    requires Valid(t) && Valid(u) && Print(t) == Print(u)
    ensures t == u
    decreases t
  {
    PrintedIsSolid(t);
    PrintedIsSolid(u);
    if t.List? && u.List? {
      ListsReadable(t.pad, t.items, u.pad, u.items);
      assert |ItemTexts(t.items)| == |ItemTexts(u.items)|;
      forall i | 0 <= i < |t.items| ensures t.items[i] == u.items[i] {
        assert ItemTexts(t.items)[i] == ItemTexts(u.items)[i];
        assert ValidPadded(t.items[i]) && ValidPadded(u.items[i]);
        PaddedReadable(t.items[i], u.items[i]);
        OneSyntaxTree(t.items[i].core, u.items[i].core);
      }
    } else if t.Record? && u.Record? {
      RecordsReadable(t.pad, t.members, u.pad, u.members);
      assert |MemberTexts(t.members)| == |MemberTexts(u.members)|;
      forall i | 0 <= i < |t.members| ensures t.members[i] == u.members[i] {
        assert MemberTexts(t.members)[i] == MemberTexts(u.members)[i];
        assert ValidMember(t.members[i]) && ValidMember(u.members[i]);
        assert ValidPadded(t.members[i].value) && ValidPadded(u.members[i].value);
        MemberReadable(t.members[i], u.members[i]);
        PaddedReadable(t.members[i].value, u.members[i].value);
        OneSyntaxTree(t.members[i].value.core, u.members[i].value.core);
      }
    } else if t.Literal? && u.Literal? {
      assert Print(t)[1..|Print(t)| - 1] == t.body && Print(u)[1..|Print(u)| - 1] == u.body;
    }
  }

  /** A text denotes one meaning only. */
  lemma DenotesOneMeaning(text: string, m: Meaning, m': Meaning)
    requires Denotes(text, m) && Denotes(text, m')
    ensures m == m'
  {
    var t :| Valid(t) && Print(t) == text && Meant(t) == m;
    var u :| Valid(u) && Print(u) == text && Meant(u) == m';
    OneSyntaxTree(t, u);
  }

  // ---- Canonical text denotes what its value means ----

  lemma HexDigitValue(n: nat)
    requires n < 16
    ensures IsHex(HexDigit(n)) && HexValue(HexDigit(n)) == n
  {
  }

  lemma EscapeSpells(c: char, x: string)
    ensures FirstSpelled(EscapeChar(c) + x) == Some((c, |EscapeChar(c)|))
  {
    var n := c as int;
    if n < 0x20 && |EscapeChar(c)| == 6 {
      HexDigitValue(0);
      HexDigitValue(n / 16);
      HexDigitValue(n % 16);
      assert EscapeChar(c)[2] == '0' && EscapeChar(c)[3] == '0';
      assert UnitAt(EscapeChar(c) + x, 2) == Some(n);
    }
  }

  lemma {:induction false} EscapedIsUnescaped(s: string)
    ensures Unescaped(EscapeAll(s)) == Some(s)
  {
    if s != "" {
      var e, rest := EscapeChar(s[0]), EscapeAll(s[1..]);
      EscapedIsUnescaped(s[1..]);
      EscapeSpells(s[0], rest);
      assert (e + rest)[|e|..] == rest;
      assert s == [s[0]] + s[1..];
    }
  }

  lemma {:induction false} SpacedWords(words: seq<string>)
    requires forall i :: 0 <= i < |words| ==> IsWord(words[i])
    ensures Words(Spaced(words)) == words
  {
    if words != [] {
      FirstWord(words);
      assert forall i :: 0 <= i < |words| - 1 ==> words[1..][i] == words[i + 1];
      SpacedWords(words[1..]);
      var s := Spaced(words);
      var n := |words[0]|;
      assert !IsSpace(words[0][0]) && s[0] == words[0][0];
      if |words| > 1 {
        assert s[n] == ' ' && s[n..][0] == ' ' && s[n..][1..] == s[n + 1..];
      } else {
        assert s[n..] == "";
      }
      assert words == [words[0]] + words[1..];
    }
  }

  lemma TreeDenotes(t: Syntax, text: string, m: Meaning)
    requires Valid(t) && Print(t) == text && Meant(t) == m
    ensures Denotes(text, m)
  {
  }

  lemma Unpadded(open: string, inside: string, close: string)
    ensures open + "" + inside + close == open + inside + close
  {
    assert open + "" == open;
  }

  // The tree of a text that denotes something.
  ghost function TreeOf(text: string, m: Meaning): (t: Syntax)
    requires Denotes(text, m)
    ensures Valid(t) && Print(t) == text && Meant(t) == m
  {
    var t :| Valid(t) && Print(t) == text && Meant(t) == m;
    t
  }

  ghost function Plain(text: string, m: Meaning): (p: Padded)
    requires Denotes(text, m)
    ensures ValidPadded(p) && PrintPadded(p) == text && Meant(p.core) == m
  {
    Padded("", TreeOf(text, m), "")
  }

  function InnerMeanings(items: seq<Padded>): (r: seq<Meaning>)
    ensures |r| == |items| && forall i :: 0 <= i < |r| ==> r[i] == Meant(items[i].core)
  {
    seq(|items|, i requires 0 <= i < |items| => Meant(items[i].core))
  }

  lemma ListMeans(pad: string, items: seq<Padded>)
    ensures Meant(List(pad, items)) == MArr(multiset(InnerMeanings(items)))
  {
    assert InnerMeanings(items) == seq(|items|, i requires 0 <= i < |items| => Meant(items[i].core));
  }

  ghost function PlainItems(texts: seq<string>, ms: seq<Meaning>): (r: seq<Padded>)
    requires |texts| == |ms| && forall i :: 0 <= i < |texts| ==> Denotes(texts[i], ms[i])
    ensures |r| == |texts| && forall i :: 0 <= i < |r| ==> ValidPadded(r[i])
    ensures ItemTexts(r) == texts && InnerMeanings(r) == ms
  {
    seq(|texts|, i requires 0 <= i < |texts| => Plain(texts[i], ms[i]))
  }

  // A list of texts with their meanings, as an array.
  lemma ArrayDenotes(texts: seq<string>, ms: seq<Meaning>)
    requires |texts| == |ms| && forall i :: 0 <= i < |texts| ==> Denotes(texts[i], ms[i])
    ensures Denotes("[" + Join(texts) + "]", MArr(multiset(ms)))
  {
    var items := PlainItems(texts, ms);
    PrintList("", items);
    ListMeans("", items);
    Unpadded("[", Join(texts), "]");
    TreeDenotes(List("", items), "[" + Join(texts) + "]", MArr(multiset(ms)));
  }

  ghost function PlainMember(key: string, text: string, m: Meaning): (r: Member)
    requires Denotes(text, m)
    ensures ValidMember(r) && PrintMember(r) == Quote(key) + ":" + text
    ensures Unescaped(r.key) == Some(key) && Meant(r.value.core) == m
  {
    EscapedIsUnescaped(key);
    var r := Member("", EscapeAll(key), "", Plain(text, m));
    assert PrintMember(r) == Quote(key) + ":" + text;
    r
  }

  lemma {:induction false} LastOfDistinct(keys: seq<string>, i: nat)
    requires i < |keys| && forall i, j :: 0 <= i < j < |keys| ==> keys[i] != keys[j]
    ensures LastIndex(keys)[keys[i]] == i
  {
  }

  function PartTexts(keys: seq<string>, texts: seq<string>): (r: seq<string>)
    requires |keys| == |texts|
    ensures |r| == |keys| && forall i :: 0 <= i < |r| ==> r[i] == Quote(keys[i]) + ":" + texts[i]
  {
    seq(|keys|, i requires 0 <= i < |keys| => Quote(keys[i]) + ":" + texts[i])
  }

  ghost function PlainMembers(keys: seq<string>, texts: seq<string>, ms: map<string, Meaning>): (r: seq<Member>)
    requires |keys| == |texts| && forall i :: 0 <= i < |keys| ==> keys[i] in ms && Denotes(texts[i], ms[keys[i]])
    ensures |r| == |keys| && forall i :: 0 <= i < |r| ==> ValidMember(r[i])
    ensures MemberTexts(r) == PartTexts(keys, texts) && KeysOf(r) == keys
    ensures forall i :: 0 <= i < |r| ==> Meant(r[i].value.core) == ms[keys[i]]
  {
    seq(|keys|, i requires 0 <= i < |keys| => PlainMember(keys[i], texts[i], ms[keys[i]]))
  }

  // Distinct keys with texts and their meanings, as an object.
  lemma ObjectDenotes(keys: seq<string>, texts: seq<string>, ms: map<string, Meaning>)
    requires |keys| == |texts| && forall i, j :: 0 <= i < j < |keys| ==> keys[i] != keys[j]
    requires forall k :: k in ms <==> k in keys
    requires forall i :: 0 <= i < |keys| ==> Denotes(texts[i], ms[keys[i]])
    ensures Denotes("{" + Join(PartTexts(keys, texts)) + "}", MObj(ms))
  {
    var members := PlainMembers(keys, texts, ms);
    PrintRecord("", members);
    RecordMeans(members, keys, ms);
    Unpadded("{", Join(PartTexts(keys, texts)), "}");
    TreeDenotes(Record("", members), "{" + Join(PartTexts(keys, texts)) + "}", MObj(ms));
  }

  lemma RecordFields(members: seq<Member>)
    ensures var m, last := Meant(Record("", members)), LastIndex(KeysOf(members));
            m.MObj? && m.fields.Keys == last.Keys &&
            forall k :: k in last ==> m.fields[k] == Meant(members[last[k]].value.core)
  {
  }

  lemma RecordMeans(members: seq<Member>, keys: seq<string>, ms: map<string, Meaning>)
    requires KeysOf(members) == keys && forall i, j :: 0 <= i < j < |keys| ==> keys[i] != keys[j]
    requires |members| == |keys| && forall k :: k in ms <==> k in keys
    requires forall i :: 0 <= i < |keys| ==> Meant(members[i].value.core) == ms[keys[i]]
    ensures Meant(Record("", members)) == MObj(ms)
  {
    var last := LastIndex(keys);
    RecordFields(members);
    forall k | k in ms ensures k in last && Meant(members[last[k]].value.core) == ms[k] {
      var i :| 0 <= i < |keys| && keys[i] == k;
      LastOfDistinct(keys, i);
    }
    forall k | k in last ensures k in ms {
      assert keys[last[k]] == k;
    }
    SameMaps(Meant(Record("", members)).fields, ms);
  }

  // The texts in byte order denote the same meanings, in some order.
  lemma SortedMeanings(texts: seq<string>, ms: seq<Meaning>) returns (ns: seq<Meaning>)
    requires |texts| == |ms| && forall i :: 0 <= i < |texts| ==> Denotes(texts[i], ms[i])
    ensures |ns| == |texts| == |Sort(texts)| && forall i :: 0 <= i < |texts| ==> Denotes(Sort(texts)[i], ns[i])
    ensures multiset(ns) == multiset(ms)
  {
    var sorted := Sort(texts);
    SortedElements(texts);
    SortSorts(texts);
    forall i | 0 <= i < |sorted| ensures exists m :: Denotes(sorted[i], m) {
      assert sorted[i] in texts;
      var j :| 0 <= j < |texts| && texts[j] == sorted[i];
      assert Denotes(sorted[i], ms[j]);
    }
    ns := seq(|sorted|, i requires 0 <= i < |sorted| => SomeMeaning(sorted[i]));
    forall i, j | 0 <= i < |sorted| && 0 <= j < |texts| && sorted[i] == texts[j] ensures ns[i] == ms[j] {
      DenotesOneMeaning(sorted[i], ns[i], ms[j]);
    }
    BagTransfer(sorted, texts, ns, ms);
  }

  ghost function SomeMeaning(text: string): (m: Meaning)
    requires exists m :: Denotes(text, m)
    ensures Denotes(text, m)
  {
    var m :| Denotes(text, m);
    m
  }

  lemma ScalarDenotes(text: string)
    requires IsScalar(text)
    ensures Denotes(text, ScalarMeaning(text))
  {
    assert Valid(Scalar(text)) && Print(Scalar(text)) == text && Meant(Scalar(text)) == ScalarMeaning(text);
  }

  lemma TextDenotes(nfc: string -> string, s: string)
    ensures Denotes(Quote(NormalizeText(nfc, s)), MStr(Words(nfc(s))))
  {
    var t := Literal(EscapeAll(NormalizeText(nfc, s)));
    EscapedIsUnescaped(NormalizeText(nfc, s));
    SpacedWords(Words(nfc(s)));
    assert Valid(t) && Print(t) == Quote(NormalizeText(nfc, s)) && Meant(t) == MStr(Words(nfc(s)));
  }

  /**
    Canonical text is the truth about its value: read as JSON, without the canonicalizer, it denotes
    exactly what the value means.
  */
  lemma {:induction false} CanonicalTextDenotes(nfc: string -> string, v: Value)
    requires WellFormed(v)
    ensures Denotes(Canonicalize(nfc, v), MeaningOf(nfc, v))
    decreases v
  {
    match v {
      case Null => ScalarDenotes("null");
      case Bool(b) =>
        assert "true"[0] == 't' && "false"[0] == 'f';
        ScalarDenotes(if b then "true" else "false");
      case Num(text) => ScalarDenotes(text);
      case Str(s) => TextDenotes(nfc, s);
      case Arr(items) =>
        forall i | 0 <= i < |items| ensures Denotes(Texts(nfc, items)[i], Meanings(nfc, items)[i]) {
          CanonicalTextDenotes(nfc, items[i]);
        }
        CanonicalArr(nfc, items);
        var ns := SortedMeanings(Texts(nfc, items), Meanings(nfc, items));
        ArrayDenotes(Sort(Texts(nfc, items)), ns);
      case Obj(fields) =>
        forall i | 0 <= i < |fields|
          ensures Denotes(Canonicalize(nfc, fields[i].value), MeaningOf(nfc, fields[i].value))
        {
          CanonicalTextDenotes(nfc, fields[i].value);
        }
        FieldsDenote(nfc, fields);
    }
  }

  lemma FieldsDenote(nfc: string -> string, fields: seq<Field>)
    requires forall i :: 0 <= i < |fields| ==>
               Denotes(Canonicalize(nfc, fields[i].value), MeaningOf(nfc, fields[i].value))
    ensures Denotes(Canonicalize(nfc, Obj(fields)), MeaningOf(nfc, Obj(fields)))
  {
    var last, keys := LastWins(nfc, fields), SortedKeys(nfc, fields);
    var texts := seq(|keys|, i requires 0 <= i < |keys| => Canonicalize(nfc, fields[last[keys[i]]].value));
    ObjMeaning(nfc, fields);
    SortedElements(Keys(nfc, fields));
    SortedKeysDistinct(nfc, fields);
    ObjectDenotes(keys, texts, MeaningOf(nfc, Obj(fields)).fields);
    CanonicalObj(nfc, fields);
    assert Parts(nfc, fields) == PartTexts(keys, texts);
  }
}
