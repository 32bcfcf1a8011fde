/**
  Operation names.

  The host recognises them in one pass over the bytes, the client with a regular
  expression on the characters; both accept the same strings.
*/
module OperationName {
  import opened Utf8

  const MAX_OPERATION_BYTES: nat := 160

  // ---- The client's language: [a-z][a-z0-9]*(?:[._/-][a-z0-9]+)* ----

  predicate Lower(c: char) {
    'a' <= c <= 'z'
  }

  predicate Alnum(c: char) {
    'a' <= c <= 'z' || '0' <= c <= '9'
  }

  predicate Separator(c: char) {
    c == '.' || c == '_' || c == '/' || c == '-'
  }

  // [a-z][a-z0-9]*
  predicate IsHead(s: string) {
    s != "" && Lower(s[0]) && forall i :: 0 <= i < |s| ==> Alnum(s[i])
  }

  // [._/-][a-z0-9]+
  predicate IsGroup(s: string) {
    |s| >= 2 && Separator(s[0]) && forall i :: 1 <= i < |s| ==> Alnum(s[i])
  }

  function Concat(groups: seq<string>): string {
    if groups == [] then "" else Concat(groups[..|groups| - 1]) + groups[|groups| - 1]
  }

  ghost predicate Splits(s: string, head: string, groups: seq<string>) {
    IsHead(head) && (forall i :: 0 <= i < |groups| ==> IsGroup(groups[i])) && s == head + Concat(groups)
  }

  ghost predicate Matches(s: string) {
    exists head, groups :: Splits(s, head, groups)
  }

  // ---- The host's scan ----

  predicate LowerByte(b: byte) {
    'a' as int <= b <= 'z' as int
  }

  predicate SeparatorByte(b: byte) {
    b == '.' as int || b == '_' as int || b == '/' as int || b == '-' as int
  }

  predicate AllowedByte(b: byte) {
    LowerByte(b) || '0' as int <= b <= '9' as int || SeparatorByte(b)
  }

  // Allowed bytes only, and no two separators next to each other.
  ghost predicate Scanned(bytes: seq<byte>) {
    (forall i :: 0 <= i < |bytes| ==> AllowedByte(bytes[i])) &&
    forall i, j :: 0 <= i && j == i + 1 && j < |bytes| ==> !(SeparatorByte(bytes[i]) && SeparatorByte(bytes[j]))
  }

  ghost predicate IsOperation(bytes: seq<byte>) {
    0 < |bytes| <= MAX_OPERATION_BYTES && LowerByte(bytes[0]) && Scanned(bytes) && !SeparatorByte(bytes[|bytes| - 1])
  }

  method ValidOperation(bytes: seq<byte>) returns (ok: bool)
    ensures ok <==> IsOperation(bytes)
  {
    if |bytes| == 0 || |bytes| > MAX_OPERATION_BYTES || !LowerByte(bytes[0]) { return false; }
    var previousSeparator := false;
    for i := 0 to |bytes|
      invariant Scanned(bytes[..i])
      invariant previousSeparator <==> i > 0 && SeparatorByte(bytes[i - 1])
    {
      var separator := SeparatorByte(bytes[i]);
      if !AllowedByte(bytes[i]) || (separator && previousSeparator) {
        assert i > 0 && separator && previousSeparator ==> SeparatorByte(bytes[i - 1]) && SeparatorByte(bytes[i]);
        return false;
      }
      assert bytes[..i + 1] == bytes[..i] + [bytes[i]];
      previousSeparator := separator;
    }
    assert bytes[..|bytes|] == bytes;
    return !previousSeparator;
  }

  // ---- The two agree ----

  // The scan's rule, on characters.
  ghost predicate Follows(s: string) {
    s != "" && Lower(s[0]) && !Separator(s[|s| - 1]) &&
    (forall i :: 0 <= i < |s| ==> Alnum(s[i]) || Separator(s[i])) &&
    forall i, j :: 0 <= i && j == i + 1 && j < |s| ==> !(Separator(s[i]) && Separator(s[j]))
  }

  predicate Ascii(s: string) {
    forall i :: 0 <= i < |s| ==> s[i] as int < 128
  }

  lemma {:induction false} AsciiEncodes(s: string)
    requires Ascii(s)
    ensures |Encode(s)| == |s| && forall i :: 0 <= i < |s| ==> Encode(s)[i] == s[i] as int
  {
    if s != "" { AsciiEncodes(s[1..]); }
  }

  lemma {:induction false} ForeignBytesShow(s: string)
    requires forall i :: 0 <= i < |Encode(s)| ==> Encode(s)[i] < 128
    ensures Ascii(s)
  {
    if s != "" {
      var rest := Encode(s[1..]);
      assert Encode(s) == EncodeChar(s[0]) + rest;
      assert Encode(s)[0] == EncodeChar(s[0])[0];
      assert Encode(s)[|EncodeChar(s[0])|..] == rest;
      ForeignBytesShow(s[1..]);
    }
  }

  lemma SameRule(bytes: seq<byte>, s: string)
    requires |bytes| == |s| && forall i :: 0 <= i < |s| ==> bytes[i] == s[i] as int
    ensures IsOperation(bytes) <==> Follows(s) && |s| <= MAX_OPERATION_BYTES
  {
    assert forall i :: 0 <= i < |s| ==> (SeparatorByte(bytes[i]) <==> Separator(s[i]));
    assert forall i :: 0 <= i < |s| ==> (AllowedByte(bytes[i]) <==> Alnum(s[i]) || Separator(s[i]));
  }

  lemma BytesFollowIff(s: string)
    ensures IsOperation(Encode(s)) <==> Follows(s) && |s| <= MAX_OPERATION_BYTES
  {
    if IsOperation(Encode(s)) {
      assert forall i :: 0 <= i < |Encode(s)| ==> AllowedByte(Encode(s)[i]);
      ForeignBytesShow(s);
    }
    if Follows(s) {
      forall i | 0 <= i < |s| ensures s[i] as int < 128 { assert Alnum(s[i]) || Separator(s[i]); }
    }
    if Ascii(s) {
      AsciiEncodes(s);
      SameRule(Encode(s), s);
    }
  }

  lemma {:induction false} MatchesFollow(s: string, head: string, groups: seq<string>)
    requires Splits(s, head, groups)
    ensures Follows(s)
    decreases groups
  {
    if groups == [] {
      assert s == head;
    } else {
      var n := |groups| - 1;
      var before, last := head + Concat(groups[..n]), groups[n];
      assert Splits(before, head, groups[..n]);
      MatchesFollow(before, head, groups[..n]);
      assert s == before + last;
    }
  }

  lemma OneGroupMore(before: string, head: string, groups: seq<string>, last: string)
    requires Splits(before, head, groups) && IsGroup(last)
    ensures Matches(before + last)
  {
    assert (groups + [last])[..|groups|] == groups;
    assert before + last == head + (Concat(groups) + last);
    assert Splits(before + last, head, groups + [last]);
  }

  // A letter or digit more lengthens the last group, or the head if there is none.
  lemma OneMoreAlnum(before: string, head: string, groups: seq<string>, c: char)
    requires Splits(before, head, groups) && Alnum(c)
    ensures Matches(before + [c])
  {
    if groups == [] {
      assert Splits(before + [c], head + [c], []);
    } else {
      var n := |groups| - 1;
      assert Splits(head + Concat(groups[..n]), head, groups[..n]);
      OneGroupMore(head + Concat(groups[..n]), head, groups[..n], groups[n] + [c]);
      assert before + [c] == head + Concat(groups[..n]) + (groups[n] + [c]);
    }
  }

  lemma {:induction false} FollowsMatch(s: string)
    requires Follows(s)
    ensures Matches(s)
  {
    var n := |s| - 1;
    if n == 0 {
      assert s == s + Concat([]);
      assert Splits(s, s, []);
    } else if Separator(s[n - 1]) {
      assert Follows(s[..n - 1]) && IsGroup(s[n - 1..]);
      FollowsMatch(s[..n - 1]);
      var head, groups :| Splits(s[..n - 1], head, groups);
      OneGroupMore(s[..n - 1], head, groups, s[n - 1..]);
      assert s == s[..n - 1] + s[n - 1..];
    } else {
      assert Follows(s[..n]);
      FollowsMatch(s[..n]);
      var head, groups :| Splits(s[..n], head, groups);
      OneMoreAlnum(s[..n], head, groups, s[n]);
      assert s == s[..n] + [s[n]];
    }
  }

  /**
    Host and client agree on every string: the scan of its bytes accepts exactly the expression's language, up to 160
    characters.
  */
  lemma HostAgreesWithClient(s: string)
    ensures IsOperation(Encode(s)) <==> Matches(s) && |s| <= 160
  {
    BytesFollowIff(s);
    if Follows(s) { FollowsMatch(s); }
    if Matches(s) {
      var head, groups :| Splits(s, head, groups);
      MatchesFollow(s, head, groups);
    }
  }
}
