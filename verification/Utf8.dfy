/**
  UTF-8 bytes of a string, their lexicographic order, and sorting by it.

  Strings are sequences of Unicode scalar values, so every string encodes,
  and different strings encode differently.
*/
module Utf8 {
  type byte = b: int | 0 <= b < 256

  function EncodeChar(c: char): (r: seq<byte>)
    ensures 1 <= |r| <= 4
    ensures c < 128 as char ==> r == [c as int]
    ensures c >= 128 as char ==> forall i :: 0 <= i < |r| ==> r[i] >= 128
  {
    var n := c as int;
    if n < 0x80 then [n]
    else if n < 0x800 then [0xC0 + n / 64, 0x80 + n % 64]
    else if n < 0x1_0000 then [0xE0 + n / 4096, 0x80 + n / 64 % 64, 0x80 + n % 64]
    else [0xF0 + n / 262144, 0x80 + n / 4096 % 64, 0x80 + n / 64 % 64, 0x80 + n % 64]
  }

  function Encode(s: string): seq<byte> {
    if s == "" then [] else EncodeChar(s[0]) + Encode(s[1..])
  }

  lemma EncodeCharReadable(c: char, d: char, x: seq<byte>, y: seq<byte>)
    requires EncodeChar(c) + x == EncodeChar(d) + y
    ensures c == d && x == y
  {
    var a, b := EncodeChar(c), EncodeChar(d);
    var whole := a + x;
    assert whole[0] == a[0] && whole[0] == b[0];
    assert |a| == |b|;
    assert a == whole[..|a|] && b == whole[..|b|];
    SameBytesSameChar(c, d);
    assert x == whole[|a|..] && y == whole[|b|..];
  }

  function DecodePoint(r: seq<byte>): int {
    var b := seq(|r|, i requires 0 <= i < |r| => r[i] as int);
    if |b| == 1 then b[0]
    else if |b| == 2 then (b[0] - 0xC0) * 64 + (b[1] - 0x80)
    else if |b| == 3 then (b[0] - 0xE0) * 4096 + (b[1] - 0x80) * 64 + (b[2] - 0x80)
    else if |b| == 4 then (b[0] - 0xF0) * 262144 + (b[1] - 0x80) * 4096 + (b[2] - 0x80) * 64 + (b[3] - 0x80)
    else 0
  }

  lemma SplitPoint(n: nat)
    ensures n == n / 64 * 64 + n % 64
    ensures n / 64 == n / 4096 * 64 + n / 64 % 64
    ensures n / 4096 == n / 262144 * 64 + n / 4096 % 64
  {
  }

  lemma DecodeEncoded(c: char)
    ensures DecodePoint(EncodeChar(c)) == c as int
  {
    SplitPoint(c as int);
  }

  lemma SameBytesSameChar(c: char, d: char)
    requires EncodeChar(c) == EncodeChar(d)
    ensures c == d
  {
    DecodeEncoded(c);
    DecodeEncoded(d);
  }

  /** Different strings have different bytes. */
  lemma {:induction false} EncodeInjective(s: string, t: string)
    requires Encode(s) == Encode(t)
    ensures s == t
  {
    if s != "" && t != "" {
      EncodeCharReadable(s[0], t[0], Encode(s[1..]), Encode(t[1..]));
      EncodeInjective(s[1..], t[1..]);
    }
  }

  // ---- Byte order ----

  predicate Before(a: seq<byte>, b: seq<byte>) {
    if b == [] then false
    else if a == [] then true
    else a[0] < b[0] || (a[0] == b[0] && Before(a[1..], b[1..]))
  }

  lemma {:induction false} BeforeIsTotal(a: seq<byte>, b: seq<byte>)
    ensures !(Before(a, b) && Before(b, a)) && !Before(a, a)
    ensures Before(a, b) || a == b || Before(b, a)
  {
    if a != [] && b != [] {
      BeforeIsTotal(a[1..], b[1..]);
      if a[0] == b[0] && a[1..] == b[1..] { assert a == [a[0]] + a[1..] && b == [b[0]] + b[1..]; }
    }
    if a != [] { BeforeIsTotal(a[1..], a[1..]); }
  }

  lemma {:induction false} BeforeTransitive(a: seq<byte>, b: seq<byte>, c: seq<byte>)
    requires Before(a, b) && Before(b, c)
    ensures Before(a, c)
  {
    if a != [] && a[0] == b[0] == c[0] { BeforeTransitive(a[1..], b[1..], c[1..]); }
  }

  /** The byte order is a strict total order. */
  lemma BeforeIsAStrictTotalOrder(a: seq<byte>, b: seq<byte>, c: seq<byte>)
    ensures !Before(a, a) && !(Before(a, b) && Before(b, a))
    ensures Before(a, b) || a == b || Before(b, a)
    ensures Before(a, b) && Before(b, c) ==> Before(a, c)
  {
    BeforeIsTotal(a, b);
    if Before(a, b) && Before(b, c) { BeforeTransitive(a, b, c); }
  }

  lemma {:induction false} BeforeByIndex(a: seq<byte>, b: seq<byte>, k: nat)
    requires k <= |a| && k <= |b| && a[..k] == b[..k]
    ensures Before(a, b) <==> Before(a[k..], b[k..])
  {
    if k > 0 {
      assert a[0] == a[..k][0] == b[..k][0] == b[0];
      assert a[1..][..k - 1] == a[..k][1..] == b[..k][1..] == b[1..][..k - 1];
      BeforeByIndex(a[1..], b[1..], k - 1);
      assert a[1..][k - 1..] == a[k..] && b[1..][k - 1..] == b[k..];
    }
  }

  /** The byte comparison loop: its sign is the lexicographic order. */
  method ByteCompare(a: seq<byte>, b: seq<byte>) returns (r: int)
    ensures r < 0 <==> Before(a, b)
    ensures r == 0 <==> a == b
    ensures r > 0 <==> Before(b, a)
  {
    var len := if |a| <= |b| then |a| else |b|;
    for i := 0 to len
      invariant a[..i] == b[..i]
    {
      BeforeByIndex(a, b, i);
      BeforeByIndex(b, a, i);
      if a[i] < b[i] {
        return -1;
      }
      if a[i] > b[i] {
        return 1;
      }
    }
    BeforeByIndex(a, b, len);
    BeforeByIndex(b, a, len);
    if |a| == |b| { assert a == a[..len] && b == b[..len]; }
    return |a| - |b|;
  }

  predicate StrBefore(s: string, t: string) {
    Before(Encode(s), Encode(t))
  }

  lemma StrBeforeIsTotal(s: string, t: string)
    ensures !(StrBefore(s, t) && StrBefore(t, s)) && (s == t ==> !StrBefore(s, t))
    ensures StrBefore(s, t) || s == t || StrBefore(t, s)
  {
    BeforeIsTotal(Encode(s), Encode(t));
    if Encode(s) == Encode(t) { EncodeInjective(s, t); }
  }

  // ---- Sorting ----

  ghost predicate Sorted(s: seq<string>) {
    forall i, j :: 0 <= i < j < |s| ==> !StrBefore(s[j], s[i])
  }

  function Insert(x: string, s: seq<string>): seq<string> {
    if s == [] || !StrBefore(s[0], x) then [x] + s else [s[0]] + Insert(x, s[1..])
  }

  // In-place sorting by ByteCompare, as its result.
  function Sort(s: seq<string>): seq<string> {
    if s == [] then [] else Insert(s[0], Sort(s[1..]))
  }

  lemma PrependedIsSorted(x: string, s: seq<string>)
    requires Sorted(s) && (s == [] || !StrBefore(s[0], x))
    ensures Sorted([x] + s)
  {
    var r := [x] + s;
    forall i, j | 0 <= i < j < |r| ensures !StrBefore(r[j], r[i]) {
      if i == 0 && j > 1 { NotBeforeChain(s[j - 1], s[0], x); }
    }
  }

  lemma {:induction false} InsertSorts(x: string, s: seq<string>)
    requires Sorted(s)
    ensures Sorted(Insert(x, s)) && multiset(Insert(x, s)) == multiset{x} + multiset(s)
  {
    if s == [] || !StrBefore(s[0], x) {
      PrependedIsSorted(x, s);
    } else {
      assert s == [s[0]] + s[1..];
      InsertSorts(x, s[1..]);
      var tail := Insert(x, s[1..]);
      forall j | 0 <= j < |tail| ensures !StrBefore(tail[j], s[0]) {
        assert tail[j] in multiset(tail);
        if tail[j] == x { StrBeforeIsTotal(s[0], x); } else {
          assert tail[j] in multiset(s[1..]);
          var k :| 0 <= k < |s[1..]| && s[1..][k] == tail[j];
          assert s[k + 1] == tail[j];
        }
      }
    }
  }

  lemma NotBeforeChain(a: string, b: string, c: string)
    requires !StrBefore(a, b) && !StrBefore(b, c)
    ensures !StrBefore(a, c)
  {
    StrBeforeIsTotal(a, b);
    StrBeforeIsTotal(b, c);
    StrBeforeIsTotal(a, c);
    if StrBefore(a, c) {
      if StrBefore(b, a) { BeforeTransitive(Encode(b), Encode(a), Encode(c)); }
    }
  }

  lemma {:induction false} SortSorts(s: seq<string>)
    ensures Sorted(Sort(s)) && multiset(Sort(s)) == multiset(s) && |Sort(s)| == |s|
  {
    if s != [] {
      SortSorts(s[1..]);
      InsertSorts(s[0], Sort(s[1..]));
      assert s == [s[0]] + s[1..];
      assert |Sort(s)| == |multiset(Sort(s))| == |multiset(s)| == |s|;
    }
  }

  lemma SameHead(s: seq<string>, t: seq<string>)
    requires s != [] && t != [] && Sorted(s) && Sorted(t) && s[0] in t && t[0] in s
    ensures s[0] == t[0]
  {
    var i :| 0 <= i < |t| && t[i] == s[0];
    var j :| 0 <= j < |s| && s[j] == t[0];
    StrBeforeIsTotal(s[0], t[0]);
  }

  lemma TailBag<T>(s: seq<T>)
    requires s != []
    ensures multiset(s[1..]) == multiset(s) - multiset{s[0]}
  {
    assert s == [s[0]] + s[1..];
  }

  /** Sorting is canonical: there is only one sorted arrangement of given strings. */
  lemma {:induction false} SortedUnique(s: seq<string>, t: seq<string>)
    requires Sorted(s) && Sorted(t) && multiset(s) == multiset(t)
    ensures s == t
  {
    assert |s| == |multiset(s)| == |multiset(t)| == |t|;
    if s != [] {
      assert s[0] in multiset(t) && t[0] in multiset(s);
      SameHead(s, t);
      TailBag(s);
      TailBag(t);
      SortedUnique(s[1..], t[1..]);
      assert s == [s[0]] + s[1..] && t == [t[0]] + t[1..];
    }
  }

  lemma SortIsCanonical(s: seq<string>, t: seq<string>)
    ensures multiset(s) == multiset(t) <==> Sort(s) == Sort(t)
  {
    SortSorts(s);
    SortSorts(t);
    if multiset(s) == multiset(t) { SortedUnique(Sort(s), Sort(t)); }
  }

  // ---- What the order is ----

  /** One byte sequence is before another exactly if they agree up to a place where it ends or has the smaller byte. */
  lemma {:induction false} BeforeIff(a: seq<byte>, b: seq<byte>)
    ensures Before(a, b) <==>
            exists k :: 0 <= k <= |a| && k < |b| && a[..k] == b[..k] && (k == |a| || a[k] < b[k])
  {
    if a != [] && b != [] && a[0] == b[0] {
      BeforeIff(a[1..], b[1..]);
      if Before(a, b) {
        var k :| 0 <= k <= |a[1..]| && k < |b[1..]| && a[1..][..k] == b[1..][..k] &&
          (k == |a[1..]| || a[1..][k] < b[1..][k]);
        assert a[..k + 1] == [a[0]] + a[1..][..k] && b[..k + 1] == [b[0]] + b[1..][..k];
      }
      if k :| 0 <= k <= |a| && k < |b| && a[..k] == b[..k] && (k == |a| || a[k] < b[k]) {
        assert k > 0;
        assert a[1..][..k - 1] == a[..k][1..] && b[1..][..k - 1] == b[..k][1..];
      }
    } else if a != [] && b != [] {
      assert forall k :: 0 < k <= |a| && k < |b| ==> a[..k][0] == a[0] && b[..k][0] == b[0];
      assert a[..0] == b[..0];
    } else {
      assert a[..0] == [] && b[..0] == [];
    }
  }
}
