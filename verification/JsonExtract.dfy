/** Finding a JSON value in noisy model output: the two scanning passes and exactly what they return. */
module JsonExtract {
  import opened Wrappers
  import opened JsonScan
  import opened CanonicalJson

  // White space as the host trims it.
  predicate IsHostSpace(c: char) {
    var n := c as int;
    9 <= n <= 13 || n == 0x20 || n == 0x85 || n == 0xA0 || n == 0x1680 || 0x2000 <= n <= 0x200A ||
    n == 0x2028 || n == 0x2029 || n == 0x202F || n == 0x205F || n == 0x3000
  }

  /** What the host trims and what the client does differ in two characters, the next-line and the byte order mark. */
  lemma HostAndClientSpace(c: char)
    ensures IsHostSpace(c) != IsSpace(c) <==> c as int == 0x85 || c as int == 0xFEFF
    ensures IsHostSpace(c) && !IsSpace(c) <==> c as int == 0x85
    ensures IsWs(c) ==> IsHostSpace(c) && IsSpace(c)
  {
  }

  function TrimStart(s: string): string
    decreases s
  {
    if s != "" && IsHostSpace(s[0]) then TrimStart(s[1..]) else s
  }

  function TrimEnd(s: string): string
    decreases s
  {
    if s != "" && IsHostSpace(s[|s| - 1]) then TrimEnd(s[..|s| - 1]) else s
  }

  function Trim(s: string): string {
    TrimEnd(TrimStart(s))
  }

  predicate AllHostSpace(s: string) {
    forall i :: 0 <= i < |s| ==> IsHostSpace(s[i])
  }

  lemma {:induction false} StartIs(s: string)
    ensures |TrimStart(s)| <= |s| && TrimStart(s) == s[|s| - |TrimStart(s)|..]
    ensures AllHostSpace(s[..|s| - |TrimStart(s)|])
    ensures TrimStart(s) != "" ==> !IsHostSpace(TrimStart(s)[0])
    decreases s
  {
    if s != "" && IsHostSpace(s[0]) {
      StartIs(s[1..]);
      var n := |s| - |TrimStart(s)|;
      assert s[n..] == s[1..][n - 1..] && s[..n] == [s[0]] + s[1..][..n - 1];
    }
  }

  lemma {:induction false} EndIs(s: string)
    ensures TrimEnd(s) <= s && AllHostSpace(s[|TrimEnd(s)|..])
    ensures TrimEnd(s) != "" ==> !IsHostSpace(TrimEnd(s)[|TrimEnd(s)| - 1])
    decreases s
  {
    if s != "" && IsHostSpace(s[|s| - 1]) {
      var n := |s| - 1;
      EndIs(s[..n]);
      assert s[|TrimEnd(s)|..] == s[..n][|TrimEnd(s)|..] + [s[n]];
    }
  }

  /** Trimming cuts white space off both ends, and nothing else: what is left begins and ends with none. */
  lemma TrimIs(s: string)
    ensures var t := Trim(s);
            (exists i, k :: 0 <= i <= k <= |s| && t == s[i..k] && AllHostSpace(s[..i]) && AllHostSpace(s[k..])) &&
            (t != "" ==> !IsHostSpace(t[0]) && !IsHostSpace(t[|t| - 1]))
  {
    StartIs(s);
    var u := TrimStart(s);
    EndIs(u);
    var i := |s| - |u|;
    var k := i + |Trim(s)|;
    assert Trim(s) == u[..|Trim(s)|] == s[i..k];
    assert s[k..] == u[|Trim(s)|..];
    if Trim(s) != "" { assert Trim(s)[0] == u[0]; }
  }

  // Index of the first c, or the length.
  function Find(s: string, c: char): (i: nat)
    ensures i <= |s| && (i < |s| ==> s[i] == c)
    ensures forall j :: 0 <= j < i ==> s[j] != c
    decreases s
  {
    if s == "" || s[0] == c then 0
    else
      var i := Find(s[1..], c);
      assert forall j :: 1 <= j < 1 + i ==> s[j] == s[1..][j - 1];
      1 + i
  }

  function DepthAfter(k: Brackets, s: string): int {
    FeedAll(k, Out(0), s).depth
  }

  // The first n characters are the shortest non-empty prefix on which the depth is back to zero.
  ghost predicate ClosesAt(k: Brackets, s: string, n: nat) {
    1 <= n <= |s| && DepthAfter(k, s[..n]) == 0 && forall m :: 1 <= m < n ==> DepthAfter(k, s[..m]) != 0
  }

  ghost predicate NeverCloses(k: Brackets, s: string) {
    forall m :: 1 <= m <= |s| ==> DepthAfter(k, s[..m]) != 0
  }

  lemma ClosesOnce(k: Brackets, s: string, n: nat, m: nat)
    requires ClosesAt(k, s, n) && ClosesAt(k, s, m)
    ensures n == m
  {
  }

  function OpenOf(k: Brackets): char {
    if k.Squares? then '[' else '{'
  }

  // What one pass answers on trimmed text: from the first opening bracket to where it closes.
  ghost predicate PassAnswers(k: Brackets, text: string, r: Option<string>) {
    var start := Find(text, OpenOf(k));
    match r
    case Some(found) =>
      start < |text| && |found| <= |text| - start && found == text[start..start + |found|] &&
      ClosesAt(k, text[start..], |found|)
    case None => start == |text| || NeverCloses(k, text[start..])
  }

  lemma FeedNext(k: Brackets, s: string, i: nat)
    requires i < |s|
    ensures FeedAll(k, Out(0), s[..i + 1]) == Feed(k, FeedAll(k, Out(0), s[..i]), s[i])
  {
    assert s[..i + 1] == s[..i] + [s[i]];
    FeedAppend(k, Out(0), s[..i], [s[i]]);
    FeedOne(k, FeedAll(k, Out(0), s[..i]), s[i]);
  }

  // The pass is inside its bracket after each of the first n characters.
  ghost predicate StaysOpen(k: Brackets, s: string, n: nat)
    requires n <= |s|
  {
    forall m :: 1 <= m <= n ==> DepthAfter(k, s[..m]) > 0
  }

  lemma OpenAfterOneMore(k: Brackets, s: string, n: nat)
    requires n < |s| && StaysOpen(k, s, n) && DepthAfter(k, s[..n + 1]) > 0
    ensures StaysOpen(k, s, n + 1)
  {
  }

  lemma ClosedHere(k: Brackets, text: string, start: nat, n: nat)
    requires start == Find(text, OpenOf(k)) && start < |text| && 1 <= n <= |text| - start
    requires StaysOpen(k, text[start..], n - 1) && DepthAfter(k, text[start..][..n]) == 0
    ensures PassAnswers(k, text, Some(text[start..start + n]))
  {
    assert ClosesAt(k, text[start..], n);
    assert |text[start..start + n]| == n;
  }

  lemma NothingCloses(k: Brackets, text: string, start: nat)
    requires start == Find(text, OpenOf(k)) && start < |text| && StaysOpen(k, text[start..], |text| - start)
    ensures PassAnswers(k, text, None)
  {
  }

  // How many characters it takes for the bracket s begins with to close, or zero if it never does.
  method ClosingLength(k: Brackets, s: string) returns (n: nat)
    requires !k.Both? && s != "" && s[0] == OpenOf(k)
    ensures n <= |s|
    ensures n == 0 ==> StaysOpen(k, s, |s|)
    ensures n > 0 ==> StaysOpen(k, s, n - 1) && DepthAfter(k, s[..n]) == 0
  {
    var depth, inString, escape := 0, false, false;
    for i := 0 to |s|
      invariant FeedAll(k, Out(0), s[..i]) == Scan(depth, inString, escape)
      invariant i > 0 ==> depth > 0
      invariant StaysOpen(k, s, i)
    {
      var c := s[i];
      FeedNext(k, s, i);
      if escape {
        escape := false;
      } else if c == '\\' && inString {
        escape := true;
      } else if c == '"' {
        inString := !inString;
      } else if Opens(k, c) && !inString {
        depth := depth + 1;
      } else if Closes(k, c) && !inString {
        depth := depth - 1;
        if depth == 0 { return i + 1; }
      }
      OpenAfterOneMore(k, s, i);
    }
    return 0;
  }

  method ScanPass(k: Brackets, text: string) returns (r: Option<string>)
    requires !k.Both?
    ensures PassAnswers(k, text, r)
  {
    var start := Find(text, OpenOf(k));
    if start == |text| { return None; }
    var n := ClosingLength(k, text[start..]);
    if n == 0 {
      NothingCloses(k, text, start);
      return None;
    }
    ClosedHere(k, text, start, n);
    return Some(text[start..start + n]);
  }

  // An object if one closes, otherwise an array if one closes.
  ghost predicate Extracts(text: string, r: Option<string>) {
    var t := Trim(text);
    if r.Some? && PassAnswers(Braces, t, r) then true
    else PassAnswers(Braces, t, None) && PassAnswers(Squares, t, r)
  }

  method ExtractJsonSubstring(text: string) returns (r: Option<string>)
    ensures Extracts(text, r)
  {
    var t := Trim(text);
    r := ScanPass(Braces, t);
    if r.None? { r := ScanPass(Squares, t); }
  }

  lemma {:induction false} PassIsFunctional(k: Brackets, text: string, r: Option<string>, q: Option<string>)
    requires PassAnswers(k, text, r) && PassAnswers(k, text, q)
    ensures r == q
  {
    var s := text[Find(text, OpenOf(k))..];
    if r.Some? && q.Some? {
      ClosesOnce(k, s, |r.value|, |q.value|);
    }
  }

  lemma AnswerOpens(k: Brackets, text: string, found: string)
    requires PassAnswers(k, text, Some(found))
    ensures found != "" && found[0] == OpenOf(k)
  {
    var start := Find(text, OpenOf(k));
    assert text[start..start + |found|][0] == text[start];
  }

  /** Extraction is a function of the text. */
  lemma ExtractionIsFunctional(text: string, r: Option<string>, q: Option<string>)
    requires Extracts(text, r) && Extracts(text, q)
    ensures r == q
  {
    var t := Trim(text);
    if r.Some? && PassAnswers(Braces, t, r) {
      if q.Some? && PassAnswers(Braces, t, q) { PassIsFunctional(Braces, t, r, q); }
      else { PassIsFunctional(Braces, t, r, None); }
    } else {
      if q.Some? && PassAnswers(Braces, t, q) { PassIsFunctional(Braces, t, None, q); }
      else { PassIsFunctional(Squares, t, r, q); }
    }
  }

  // ---- Printed objects are found ----

  lemma {:induction false} TrimStartKeeps(pre: string, s: string)
    requires s != "" && !IsHostSpace(s[0])
    ensures TrimStart(pre + s) == TrimStart(pre) + s
    ensures forall c :: c in TrimStart(pre) ==> c in pre
    decreases pre
  {
    if pre == "" {
      assert pre + s == s;
    } else if IsHostSpace(pre[0]) {
      assert (pre + s)[1..] == pre[1..] + s;
      TrimStartKeeps(pre[1..], s);
    }
  }

  lemma {:induction false} TrimEndKeeps(s: string, post: string)
    requires s != "" && !IsHostSpace(s[|s| - 1])
    ensures TrimEnd(s + post) == s + TrimEnd(post)
    decreases post
  {
    if post == "" {
      assert s + post == s;
    } else if IsHostSpace(post[|post| - 1]) {
      var n := |s + post| - 1;
      assert (s + post)[..n] == s + post[..|post| - 1];
      TrimEndKeeps(s, post[..|post| - 1]);
    }
  }

  lemma TrimKeeps(pre: string, s: string, post: string) returns (before: string, after: string)
    requires s != "" && !IsHostSpace(s[0]) && !IsHostSpace(s[|s| - 1])
    ensures Trim(pre + s + post) == before + s + after
    ensures forall c :: c in before ==> c in pre
  {
    before, after := TrimStart(pre), TrimEnd(post);
    TrimStartKeeps(pre, s + post);
    assert pre + s + post == pre + (s + post);
    TrimEndKeeps(before + s, post);
    assert before + (s + post) == before + s + post;
  }

  lemma FindAfter(before: string, s: string, c: char)
    requires c !in before && s != "" && s[0] == c
    ensures Find(before + s, c) == |before|
  {
    assert forall j :: 0 <= j < |before| ==> (before + s)[j] == before[j] && before[j] in before;
    assert (before + s)[|before|] == c;
  }

  // A text in brackets closes at its end and not before.
  lemma BracketedCloses(k: Brackets, open: char, inside: string, close: char, after: string)
    requires (k == Braces && open == '{' && close == '}') || (k == Squares && open == '[' && close == ']')
    requires Passes(k, 1, inside, {})
    ensures var s := [open] + inside + [close]; ClosesAt(k, s + after, |s|)
  {
    var s := [open] + inside + [close];
    FeedOne(k, Out(0), open);
    FeedOne(k, Out(1), close);
    FeedAppend(k, Out(0), [open], inside);
    FeedAppend(k, Out(0), [open] + inside, [close]);
    assert (s + after)[..|s|] == s;
    forall m | 1 <= m < |s| ensures DepthAfter(k, (s + after)[..m]) != 0 {
      assert (s + after)[..m] == [open] + inside[..m - 1];
      FeedAppend(k, Out(0), [open], inside[..m - 1]);
      if m > 1 { QuietAt(k, Out(1), inside, 1, {}, m - 2); }
    }
  }

  lemma ObjectCloses(s: string, n: nat, after: string)
    requires IsObject(s, n)
    ensures ClosesAt(Braces, s + after, |s|)
    ensures s != "" && s[0] == '{' && s[|s| - 1] == '}'
  {
    var inside := ObjectInside(Braces, 1, s, n);
    BracketedCloses(Braces, '{', inside, '}', after);
  }

  lemma StartsWithBrace(s: string, n: nat)
    requires s != "" && JsonText(s, n) && s[0] == '{'
    ensures n > 0 && IsObject(s, n - 1)
  {
    assert IsScalar(s) ==> !Structural(s[0]);
    if n > 0 && IsArray(s, n - 1) {
      ArrayCloses(s, n - 1, "");
      assert false;
    }
  }

  /**
    Printing is inverted.  Any JSON object text, with any text before it that has no
    opening brace and any text at all after it, is extracted unchanged.
  */
  lemma PrintedObjectIsExtracted(pre: string, s: string, n: nat, post: string)
    requires s != "" && JsonText(s, n) && s[0] == '{' && '{' !in pre
    ensures Extracts(pre + s + post, Some(s))
  {
    StartsWithBrace(s, n);
    ObjectCloses(s, n - 1, "");
    var before, after := TrimKeeps(pre, s, post);
    var t := before + s + after;
    assert t == before + (s + after);
    FindAfter(before, s + after, '{');
    ObjectCloses(s, n - 1, after);
    assert t[|before|..] == s + after;
    assert t[|before|..|before| + |s|] == s;
    assert PassAnswers(Braces, t, Some(s));
  }

  /** In particular the canonical text of every object value is extracted from any such surroundings. */
  lemma CanonicalObjectIsExtracted(nfc: string -> string, fields: seq<Field>, pre: string, post: string)
    requires WellFormed(Obj(fields)) && '{' !in pre
    ensures Extracts(pre + Canonicalize(nfc, Obj(fields)) + post, Some(Canonicalize(nfc, Obj(fields))))
  {
    CanonicalIsJson(nfc, Obj(fields));
    FirstCharacter(nfc, Obj(fields));
    PrintedObjectIsExtracted(pre, Canonicalize(nfc, Obj(fields)), Height(Obj(fields)), post);
  }

  lemma StartsWithSquare(s: string, n: nat)
    requires s != "" && JsonText(s, n) && s[0] == '['
    ensures n > 0 && IsArray(s, n - 1)
  {
    assert IsScalar(s) ==> !Structural(s[0]);
    if n > 0 && IsObject(s, n - 1) {
      ObjectCloses(s, n - 1, "");
      assert false;
    }
  }

  lemma ArrayCloses(s: string, n: nat, after: string)
    requires IsArray(s, n)
    ensures ClosesAt(Squares, s + after, |s|)
    ensures s != "" && s[0] == '[' && s[|s| - 1] == ']'
  {
    var inside := ArrayInside(Squares, 1, s, n);
    BracketedCloses(Squares, '[', inside, ']', after);
  }

  /**
    An array text is extracted from surroundings without an earlier square bracket
    exactly when no brace anywhere in the trimmed text closes: objects go first.
  */
  lemma PrintedArrayIsExtractedIff(pre: string, s: string, n: nat, post: string)
    requires s != "" && JsonText(s, n) && s[0] == '[' && '[' !in pre
    ensures Extracts(pre + s + post, Some(s)) <==> PassAnswers(Braces, Trim(pre + s + post), None)
  {
    StartsWithSquare(s, n);
    ArrayCloses(s, n - 1, "");
    var before, after := TrimKeeps(pre, s, post);
    var t := before + s + after;
    assert t == before + (s + after);
    FindAfter(before, s + after, '[');
    ArrayCloses(s, n - 1, after);
    assert t[|before|..] == s + after;
    assert t[|before|..|before| + |s|] == s;
    assert PassAnswers(Squares, t, Some(s));
    if PassAnswers(Braces, t, Some(s)) {
      AnswerOpens(Braces, t, s);
      assert false;
    }
  }

  /** A list of objects is therefore answered by its first object alone. */
  lemma ListOfObjectsYieldsTheFirst(pre: string, s: string, n: nat, rest: string)
    requires s != "" && JsonText(s, n) && s[0] == '{' && '{' !in pre
    ensures Extracts(pre + "[" + s + rest, Some(s))
  {
    assert '{' !in pre + "[";
    PrintedObjectIsExtracted(pre + "[", s, n, rest);
  }
}
