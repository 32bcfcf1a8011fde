/** The client's host on strings: trimming and extraction as proved in JsonExtract, an arbitrary JSON parser. */
module LlmHost {
  import opened Wrappers
  import opened Utf8
  import opened JsonScan
  import opened JsonExtract
  import opened LlmRetry

  // ---- Extraction as a function ----

  lemma {:induction false} SomeClosing(k: Brackets, s: string, n: nat)
    requires 1 <= n <= |s| && DepthAfter(k, s[..n]) == 0
    ensures exists m: nat :: ClosesAt(k, s, m)
  {
    if j :| 1 <= j < n && DepthAfter(k, s[..j]) == 0 {
      SomeClosing(k, s, j);
    } else {
      assert ClosesAt(k, s, n);
    }
  }

  // The answer of one pass.
  ghost function PassAnswer(k: Brackets, text: string): (r: Option<string>)
    ensures PassAnswers(k, text, r)
  {
    var start := Find(text, OpenOf(k));
    if start == |text| then None
    else if NeverCloses(k, text[start..]) then None
    else
      var s := text[start..];
      var n :| 1 <= n <= |s| && DepthAfter(k, s[..n]) == 0;
      SomeClosing(k, s, n);
      var m: nat :| ClosesAt(k, s, m);
      assert text[start..start + m] == s[..m];
      Some(text[start..start + m])
  }

  ghost function Extraction(text: string): (r: Option<string>)
    ensures Extracts(text, r)
  {
    var t := Trim(text);
    if PassAnswer(Braces, t).Some? then PassAnswer(Braces, t) else PassAnswer(Squares, t)
  }

  // ---- Trimming twice is trimming once ----

  lemma TrimIsIdempotent(s: string)
    ensures Trim(Trim(s)) == Trim(s)
  {
    TrimIs(s);
    var t := Trim(s);
    assert TrimStart(t) == t && TrimEnd(t) == t;
  }

  // ---- The host; a text that is not UTF-8 does not parse ----

  ghost predicate IsUtf8(t: Text) {
    exists s :: Encode(s) == t
  }

  ghost function Decoded(t: Text): (s: string)
    requires IsUtf8(t)
    ensures Encode(s) == t
  {
    var s :| Encode(s) == t;
    s
  }

  lemma DecodedEncoded(s: string)
    ensures IsUtf8(Encode(s)) && Decoded(Encode(s)) == s
  {
    assert Encode(s) == Encode(s);
    EncodeInjective(Decoded(Encode(s)), s);
  }

  ghost function Extracted(t: Text): Option<Text> {
    if !IsUtf8(t) then None
    else match Extraction(Decoded(t)) case Some(found) => Some(Encode(found)) case None => None
  }

  // The host whose parser accepts the strings that parses accepts.
  ghost function StringHost(parses: string -> bool): Host {
    Host(t => if IsUtf8(t) then Encode(Trim(Decoded(t))) else t,
         t => IsUtf8(t) && parses(Decoded(t)),
         t => Extracted(t))
  }

  lemma StringHostOn(parses: string -> bool, s: string)
    ensures StringHost(parses).trim(Encode(s)) == Encode(Trim(s))
    ensures StringHost(parses).parses(Encode(s)) == parses(s)
  {
    DecodedEncoded(s);
  }

  lemma StringHostIsSane(parses: string -> bool)
    ensures Sane(StringHost(parses))
  {
    var h := StringHost(parses);
    assert h.trim([]) == [] by {
      StringHostOn(parses, "");
      assert Trim("") == "";
    }
    forall t ensures h.trim(h.trim(t)) == h.trim(t) {
      if IsUtf8(t) {
        StringHostOn(parses, Decoded(t));
        StringHostOn(parses, Trim(Decoded(t)));
        TrimIsIdempotent(Decoded(t));
      }
    }
  }

  // The string parses, trimmed or not, or the JSON substring extracted from it does.
  ghost predicate HoldsJson(parses: string -> bool, s: string) {
    parses(s) || parses(Trim(s)) || exists found :: Extracts(s, Some(found)) && parses(found)
  }

  lemma UsableIff(parses: string -> bool, t: Text)
    ensures Usable(StringHost(parses), t) <==> IsUtf8(t) && HoldsJson(parses, Decoded(t))
  {
    if IsUtf8(t) {
      var s := Decoded(t);
      StringHostOn(parses, s);
      StringHostOn(parses, Trim(s));
      if Extraction(s).Some? { StringHostOn(parses, Extraction(s).value); }
      forall found | Extracts(s, Some(found)) ensures Extraction(s) == Some(found) {
        ExtractionIsFunctional(s, Extraction(s), Some(found));
      }
    }
  }

  /**
    In JSON mode, whatever the network answers: at most nine requests, and the first choice of a
    returned response holds a UTF-8 string that parses or from which a substring that parses is
    extracted, repaired or not.
  */
  lemma JsonModeHoldsJson(parses: string -> bool, network: Network)
    ensures var (r, sent) := Call(StringHost(parses), network, true, 1, 0);
            sent <= 9 &&
            (r.Returned? && HasFirstChoice(r.response) ==>
               IsUtf8(ContentOf(r.response)) && HoldsJson(parses, Decoded(ContentOf(r.response))))
  {
    var h := StringHost(parses);
    StringHostIsSane(parses);
    AtMostNineRequests(h, network, true);
    var r := Call(h, network, true, 1, 0).0;
    if r.Returned? && HasFirstChoice(r.response) { UsableIff(parses, ContentOf(r.response)); }
  }

  // ---- Detection on strings ----

  lemma CharBytes(c: char)
    ensures var r := EncodeChar(c);
            (r[0] < 0x80 || r[0] >= 0xC0) && forall i :: 1 <= i < |r| ==> 0x80 <= r[i] < 0xC0
  {
  }

  // The characters from k on take n bytes.
  predicate SuffixTakes(s: string, k: nat, n: nat) {
    k <= |s| && |Encode(s[k..])| == n
  }

  predicate TailFrom(s: string, k: nat, n: nat, tail: Text) {
    SuffixTakes(s, k, n) && tail == Encode(s[k..])
  }

  // The character with which the last n bytes of the string begin.
  function CharAt(s: string, n: nat): (k: Option<nat>)
    ensures k.Some? ==> k.value <= |s|
  {
    if |Encode(s)| == n then Some(0)
    else if s == "" then None
    else match CharAt(s[1..], n) case None => None case Some(k) => Some(k + 1)
  }

  lemma {:induction false} SuffixesShrink(s: string, k: nat)
    requires k <= |s|
    ensures |Encode(s[k..])| + k <= |Encode(s)|
    decreases k
  {
    if k == 0 {
      assert s[0..] == s;
    } else {
      assert s[1..][k - 1..] == s[k..];
      SuffixesShrink(s[1..], k - 1);
    }
  }

  lemma {:induction false} CharAtIs(s: string, n: nat, k: nat)
    ensures CharAt(s, n) == Some(k) <==> SuffixTakes(s, k, n)
  {
    if k <= |s| { SuffixesShrink(s, k); }
    if k == 0 {
      assert s[0..] == s;
    } else if s != "" {
      CharAtIs(s[1..], n, k - 1);
      if k <= |s| { assert s[1..][k - 1..] == s[k..]; }
    }
  }

  // Slicing n bytes from the end is allowed exactly if a character begins there, and gives its suffix.
  predicate Agrees(b: Text, n: nat, at: Option<nat>, suffix: Text) {
    n <= |b| && (IsBoundary(b, |b| - n) <==> at.Some?) && (at.Some? ==> b[|b| - n..] == suffix)
  }

  // What is behind the first character.
  lemma AgreesBehind(whole: Text, e: Text, rest: Text, n: nat, at: Option<nat>, later: Option<nat>, suffix: Text)
    requires whole == e + rest && e != [] && (rest != [] ==> rest[0] < 0x80 || rest[0] >= 0xC0)
    requires Agrees(rest, n, later, suffix) && (at.Some? <==> later.Some?)
    ensures Agrees(whole, n, at, suffix)
  {
    if n > 0 { assert whole[|whole| - n] == rest[|rest| - n]; }
  }

  function SuffixAt(s: string, at: Option<nat>): Text {
    if at.Some? && at.value <= |s| then Encode(s[at.value..]) else []
  }

  lemma {:induction false} FewBytesLeft(s: string, n: nat)
    requires n > |Encode(s)|
    ensures CharAt(s, n).None?
  {
    if s != "" { FewBytesLeft(s[1..], n); }
  }

  // The last n bytes begin inside the first character.
  lemma NoCharInside(s: string, n: nat)
    requires s != "" && |Encode(s[1..])| < n < |Encode(s)|
    ensures !IsBoundary(Encode(s), |Encode(s)| - n) && CharAt(s, n).None?
  {
    CharBytes(s[0]);
    assert Encode(s) == EncodeChar(s[0]) + Encode(s[1..]);
    assert Encode(s)[|Encode(s)| - n] == EncodeChar(s[0])[|Encode(s)| - n];
    FewBytesLeft(s[1..], n);
  }

  lemma EncodedStart(s: string)
    ensures Encode(s) != [] ==> Encode(s)[0] < 0x80 || Encode(s)[0] >= 0xC0
  {
    if s != "" { CharBytes(s[0]); }
  }

  lemma CharAtBehind(s: string, n: nat)
    requires s != "" && n < |Encode(s)|
    ensures CharAt(s, n).Some? <==> CharAt(s[1..], n).Some?
    ensures SuffixAt(s, CharAt(s, n)) == SuffixAt(s[1..], CharAt(s[1..], n))
  {
    if CharAt(s[1..], n).Some? { assert s[CharAt(s, n).value..] == s[1..][CharAt(s[1..], n).value..]; }
  }

  lemma {:induction false} BoundaryIsChar(s: string, n: nat)
    requires n <= |Encode(s)|
    ensures Agrees(Encode(s), n, CharAt(s, n), SuffixAt(s, CharAt(s, n)))
  {
    if n == |Encode(s)| {
      assert s[0..] == s;
    } else if n <= |Encode(s[1..])| {
      EncodedStart(s[1..]);
      CharAtBehind(s, n);
      BoundaryIsChar(s[1..], n);
      AgreesBehind(Encode(s), EncodeChar(s[0]), Encode(s[1..]), n, CharAt(s, n), CharAt(s[1..], n),
                   SuffixAt(s, CharAt(s, n)));
    } else {
      NoCharInside(s, n);
    }
  }

  lemma CharAtIff(s: string, n: nat)
    ensures CharAt(s, n).Some? <==> exists k: nat :: SuffixTakes(s, k, n)
    ensures forall k: nat :: SuffixTakes(s, k, n) ==> TailFrom(s, k, n, SuffixAt(s, CharAt(s, n)))
  {
    var at := CharAt(s, n);
    if at.Some? { CharAtIs(s, n, at.value); }
    forall k: nat | SuffixTakes(s, k, n) ensures at == Some(k) { CharAtIs(s, n, k); }
  }

  lemma SliceAt(s: string, b: Text, n: nat)
    requires Agrees(b, n, CharAt(s, n), SuffixAt(s, CharAt(s, n)))
    ensures IsBoundary(b, |b| - n) <==> exists k: nat :: SuffixTakes(s, k, n)
    ensures forall k: nat :: SuffixTakes(s, k, n) ==> TailFrom(s, k, n, b[|b| - n..])
  {
    CharAtIff(s, n);
  }

  /** A string's bytes may be sliced n from the end exactly if some of its characters take the last n bytes. */
  lemma BoundaryIff(s: string, n: nat)
    requires n <= |Encode(s)|
    ensures var b := Encode(s);
            (IsBoundary(b, |b| - n) <==> exists k: nat :: SuffixTakes(s, k, n)) &&
            forall k: nat :: SuffixTakes(s, k, n) ==> TailFrom(s, k, n, b[|b| - n..])
  {
    BoundaryIsChar(s, n);
    SliceAt(s, Encode(s), n);
  }

  // The detector's tail is at most 512 bytes.
  function TailLength(t: Text): nat {
    if |t| > TAIL_BYTES then TAIL_BYTES else |t|
  }

  /**
    A reply not cut off: complete exactly if it parses once trimmed or a JSON substring of it does, and else invalid.
  */
  lemma WholeReplyDetected(parses: string -> bool, s: string)
    ensures Detect(StringHost(parses), Encode(s), false) ==
            if parses(Trim(s)) || exists found :: Extracts(s, Some(found)) && parses(found) then Complete else Invalid
  {
    StringHostOn(parses, s);
    StringHostOn(parses, Trim(s));
    ExtractedParsesIff(parses, s);
  }

  /**
    A reply cut off: complete if it parses once trimmed; else truncated, with a tail of whole characters, exactly if
    some of its characters take its last 512 bytes (or it is shorter); else the detector panics.
  */
  lemma CutReplyDetected(parses: string -> bool, s: string)
    ensures var t := Trim(s);
            var n := TailLength(Encode(t));
            match Detect(StringHost(parses), Encode(s), true)
            case Complete => parses(t)
            case Invalid => false
            case Truncated(partial, tail) =>
              !parses(t) && partial == Encode(t) && exists k: nat :: TailFrom(t, k, n, tail)
            case DetectionPanics => !parses(t) && forall k: nat :: !SuffixTakes(t, k, n)
  {
    var t := Trim(s);
    StringHostOn(parses, s);
    StringHostOn(parses, t);
    CutDetected(StringHost(parses), Encode(s));
    if !parses(t) { TailOnStrings(t, TailLength(Encode(t))); }
  }

  // The detector on the bytes of a reply that was cut off.
  lemma CutDetected(h: Host, content: Text)
    ensures Detect(h, content, true) ==
            if h.parses(h.trim(content)) then Complete else CutAt(h.trim(content), TailLength(h.trim(content)))
  {
  }

  function CutAt(t: Text, n: nat): Detection
    requires n <= |t|
  {
    if IsBoundary(t, |t| - n) then Truncated(t, t[|t| - n..]) else DetectionPanics
  }

  // Where bytes are cut is told by the characters of t.
  ghost predicate CutByChars(t: string, b: Text, n: nat, d: Detection) {
    match d
    case Truncated(partial, tail) => partial == b && exists k: nat :: TailFrom(t, k, n, tail)
    case DetectionPanics => forall k: nat :: !SuffixTakes(t, k, n)
    case _ => false
  }

  lemma CutOf(t: string, b: Text, n: nat)
    requires Agrees(b, n, CharAt(t, n), SuffixAt(t, CharAt(t, n)))
    ensures CutByChars(t, b, n, CutAt(b, n))
  {
    SliceAt(t, b, n);
    if k: nat :| SuffixTakes(t, k, n) { assert TailFrom(t, k, n, b[|b| - n..]); }
  }

  lemma TailOnStrings(t: string, n: nat)
    requires n <= |Encode(t)|
    ensures CutByChars(t, Encode(t), n, CutAt(Encode(t), n))
  {
    BoundaryIsChar(t, n);
    CutOf(t, Encode(t), n);
  }

  lemma ExtractedParsesIff(parses: string -> bool, s: string)
    ensures var h := StringHost(parses);
            h.extract(Encode(s)).Some? && h.parses(h.extract(Encode(s)).value) <==>
            exists found :: Extracts(s, Some(found)) && parses(found)
  {
    DecodedEncoded(s);
    if Extraction(s).Some? { StringHostOn(parses, Extraction(s).value); }
    forall found | Extracts(s, Some(found)) ensures Extraction(s) == Some(found) {
      ExtractionIsFunctional(s, Extraction(s), Some(found));
    }
  }

  // ---- The bounds and panics on this host ----

  lemma NothingToTrim(s: string)
    requires s == "" || (!IsHostSpace(s[0]) && !IsHostSpace(s[|s| - 1]))
    ensures Trim(s) == s
  {
  }

  lemma BraceBytes()
    ensures Encode("{") == [0x7B] && Encode("{}") == [0x7B, 0x7D]
  {
    assert "{"[1..] == "" && "{}"[1..] == "}" && "}"[1..] == "";
    assert Encode("") == [];
    assert EncodeChar('{') == [0x7B] && EncodeChar('}') == [0x7D];
  }

  /** Nine requests are sent when every reply is an opening brace, cut off, and that is no JSON to the parser. */
  lemma OpenBraceSendsNine(parses: string -> bool, network: Network)
    requires !parses("{") && forall i :: network(i) == Ok(Cut(Encode("{")))
    ensures Call(StringHost(parses), network, true, 1, 0) == (Failed(TruncationRepairFailed), 9)
  {
    BraceBytes();
    StringHostOn(parses, "{");
    NothingToTrim("{");
    NineRequestsHappen(StringHost(parses), network, Encode("{"));
  }

  /**
    An opening brace cut off, a client error on the repair, then an empty object: the call succeeds with three
    requests.
  */
  lemma RejectedBraceIsRetried(parses: string -> bool)
    requires !parses("{") && parses("{}")
    ensures Call(StringHost(parses), RejectedRepair(Encode("{"), Encode("{}")), true, 1, 0) ==
            (Returned(Whole(Encode("{}"))), 3)
  {
    BraceBytes();
    StringHostOn(parses, "{");
    StringHostOn(parses, "{}");
    NothingToTrim("{");
    NothingToTrim("{}");
    RejectedRepairIsRetried(StringHost(parses), Encode("{"), Encode("{}"));
  }

  function Repeat(c: char, n: nat): string {
    if n == 0 then "" else [c] + Repeat(c, n - 1)
  }

  lemma {:induction false} RepeatEncodes(n: nat)
    ensures |Repeat('a', n)| == n && (forall i :: 0 <= i < n ==> Repeat('a', n)[i] == 'a')
    ensures Encode(Repeat('a', n)) == seq(n, _ => 0x61)
  {
    if n > 0 {
      RepeatEncodes(n - 1);
      assert Repeat('a', n)[1..] == Repeat('a', n - 1);
      assert EncodeChar('a') == [0x61];
    }
  }

  // An accented letter and n more letters.
  function Accented(n: nat): string {
    ['\U{E9}'] + Repeat('a', n)
  }

  lemma AccentedBytes(n: nat)
    requires n > 0
    ensures Encode(Accented(n)) == [0xC3, 0xA9] + seq(n, _ => 0x61) && Trim(Accented(n)) == Accented(n)
  {
    var s := Accented(n);
    RepeatEncodes(n);
    assert s[1..] == Repeat('a', n);
    assert EncodeChar('\U{E9}') == [0xC3, 0xA9];
    assert s[|s| - 1] == Repeat('a', n)[n - 1];
    NothingToTrim(s);
  }

  /** A cut-off reply of an accented letter and 511 more letters, no JSON to the parser, makes the call panic. */
  lemma AccentedReplyPanics(parses: string -> bool, network: Network, n: nat)
    requires n == 511 && !parses(Accented(n)) && network(0) == Ok(Cut(Encode(Accented(n))))
    ensures Call(StringHost(parses), network, true, 1, 0) == (Crashed, 1)
  {
    AccentedBytes(n);
    assert Encode(Accented(n)) == ACCENTED;
    StringHostOn(parses, Accented(n));
    DetectionCanSplitACharacter(StringHost(parses));
    assert ContentOf(Cut(ACCENTED)) == ACCENTED;
  }
}
