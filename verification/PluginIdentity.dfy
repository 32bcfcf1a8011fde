/** Plugin versions, the newest compatible package of each id, and the set of enabled keys. */
module PluginIdentity {
  import opened Wrappers

  // What a numeral is worth (zero when it is none), and how the locale orders two suffixes.
  datatype Rules = Rules(number: string -> real, collate: (string, string) -> int)

  ghost predicate Collates(r: Rules) {
    (forall x, y :: r.collate(x, y) > 0 <==> r.collate(y, x) < 0) &&
    forall x, y, z {:trigger r.collate(x, y), r.collate(y, z), r.collate(x, z)} ::
      r.collate(x, y) <= 0 && r.collate(y, z) <= 0 ==> r.collate(x, z) <= 0
  }

  // ---- Reading a version ----

  datatype Version = Version(parts: seq<real>, suffix: string)

  // The pieces between separators: one more than there are separators.
  function Split(s: string, separator: char): (r: seq<string>)
    ensures |r| > 0
  {
    if s == "" then [""]
    else
      var rest := Split(s[1..], separator);
      if s[0] == separator then [""] + rest else [[s[0]] + rest[0]] + rest[1..]
  }

  function NumericVersion(r: Rules, value: string): (v: Version)
    ensures |v.parts| == 3
  {
    var pieces := Split(value, '-');
    var core := Split(pieces[0], '.');
    var part := i requires i >= 0 => if i < |core| then r.number(core[i]) else 0.0;
    Version([part(0), part(1), part(2)], if |pieces| > 1 then pieces[1] else "")
  }

  // ---- The order ----

  // Agreeing up to part i, and smaller there.
  ghost predicate SmallerAt(a: Version, b: Version, i: nat)
    requires |a.parts| == |b.parts| == 3
  {
    i < 3 && a.parts[i] < b.parts[i] && a.parts[..i] == b.parts[..i]
  }

  // A version with a suffix comes before the one without.
  predicate SuffixBefore(r: Rules, s: string, t: string) {
    s != t && s != "" && (t == "" || r.collate(s, t) < 0)
  }

  ghost predicate Before(r: Rules, a: Version, b: Version)
    requires |a.parts| == |b.parts| == 3
  {
    (exists i :: SmallerAt(a, b, i)) || (a.parts == b.parts && SuffixBefore(r, a.suffix, b.suffix))
  }

  ghost predicate Older(r: Rules, left: string, right: string) {
    Before(r, NumericVersion(r, left), NumericVersion(r, right))
  }

  /** The comparison loop: its sign says which version is older. */
  method ComparePluginVersions(r: Rules, left: string, right: string) returns (c: int)
    requires Collates(r)
    ensures c < 0 <==> Older(r, left, right)
    ensures c > 0 <==> Older(r, right, left)
  {
    var a, b := NumericVersion(r, left), NumericVersion(r, right);
    for i := 0 to 3
      invariant a.parts[..i] == b.parts[..i]
    {
      if a.parts[i] != b.parts[i] {
        NotSmallerBefore(a, b, i);
        NotSmallerBefore(b, a, i);
        assert SmallerAt(a, b, i) || SmallerAt(b, a, i);
        return if a.parts[i] < b.parts[i] then -1 else 1;
      }
      assert a.parts[..i + 1] == a.parts[..i] + [a.parts[i]] && b.parts[..i + 1] == b.parts[..i] + [b.parts[i]];
    }
    assert a.parts == a.parts[..3] == b.parts[..3] == b.parts;
    if a.suffix == b.suffix { return 0; }
    if a.suffix == "" { return 1; }
    if b.suffix == "" { return -1; }
    return r.collate(a.suffix, b.suffix);
  }

  lemma NotSmallerBefore(a: Version, b: Version, i: nat)
    requires |a.parts| == |b.parts| == 3 && i < 3 && a.parts[..i] == b.parts[..i] && a.parts[i] != b.parts[i]
    ensures a.parts != b.parts
    ensures forall j :: SmallerAt(a, b, j) ==> j == i
  {
    assert forall j :: 0 <= j < i ==> a.parts[j] == a.parts[..i][j] == b.parts[..i][j] == b.parts[j];
    forall j: nat | SmallerAt(a, b, j) ensures j == i {
      assert forall k :: 0 <= k < j ==> a.parts[k] == a.parts[..j][k] == b.parts[..j][k] == b.parts[k];
    }
  }

  lemma PartsDecide(a: Version, b: Version)
    requires |a.parts| == |b.parts| == 3
    ensures a.parts == b.parts || (exists i :: SmallerAt(a, b, i)) || exists i :: SmallerAt(b, a, i)
    ensures !((exists i :: SmallerAt(a, b, i)) && exists i :: SmallerAt(b, a, i))
    ensures a.parts == b.parts ==> !(exists i :: SmallerAt(a, b, i))
  {
    if a.parts != b.parts {
      var i := if a.parts[0] != b.parts[0] then 0 else if a.parts[1] != b.parts[1] then 1 else 2;
      assert a.parts[..i] == b.parts[..i];
      assert a.parts[2] == b.parts[2] && i == 2 ==> a.parts == b.parts;
      NotSmallerBefore(a, b, i);
      NotSmallerBefore(b, a, i);
      assert SmallerAt(a, b, i) || SmallerAt(b, a, i);
    }
  }

  lemma PartsChain(a: Version, b: Version, c: Version, i: nat, j: nat)
    requires |a.parts| == |b.parts| == |c.parts| == 3
    requires SmallerAt(a, b, i) && SmallerAt(b, c, j)
    ensures SmallerAt(a, c, if i <= j then i else j)
  {
    var k := if i <= j then i else j;
    assert a.parts[..k] == a.parts[..i][..k] == b.parts[..i][..k] == b.parts[..k];
    assert b.parts[..k] == b.parts[..j][..k] == c.parts[..j][..k] == c.parts[..k];
    if i < j { assert b.parts[..j][i] == c.parts[..j][i]; }
    if j < i { assert a.parts[..i][j] == b.parts[..i][j]; }
  }

  // The same three numbers, and suffixes that are equal or, being there, collate as equal.
  predicate Tie(r: Rules, left: string, right: string) {
    var a, b := NumericVersion(r, left), NumericVersion(r, right);
    a.parts == b.parts &&
    (a.suffix == b.suffix || (a.suffix != "" && b.suffix != "" && r.collate(a.suffix, b.suffix) == 0))
  }

  /** Of two versions neither is older exactly when they tie. */
  lemma NeitherOlderIff(r: Rules, x: string, y: string)
    requires Collates(r)
    ensures !Older(r, x, y) && !Older(r, y, x) <==> Tie(r, x, y)
  {
    var a, b := NumericVersion(r, x), NumericVersion(r, y);
    PartsDecide(a, b);
    PartsDecide(b, a);
    assert r.collate(a.suffix, b.suffix) > 0 <==> r.collate(b.suffix, a.suffix) < 0;
  }

  lemma OlderIsAsymmetric(r: Rules, x: string, y: string)
    requires Collates(r)
    ensures !(Older(r, x, y) && Older(r, y, x))
  {
    PartsDecide(NumericVersion(r, x), NumericVersion(r, y));
  }

  /** "Not older" is a total preorder on all strings. */
  lemma NotOlderIsTransitive(r: Rules, x: string, y: string, z: string)
    requires Collates(r) && !Older(r, y, x) && !Older(r, z, y)
    ensures !Older(r, z, x)
  {
    var a, b, c := NumericVersion(r, x), NumericVersion(r, y), NumericVersion(r, z);
    PartsDecide(a, b);
    PartsDecide(b, c);
    PartsDecide(a, c);
    if i, j :| SmallerAt(a, b, i) && SmallerAt(b, c, j) {
      PartsChain(a, b, c, i, j);
    } else if i :| SmallerAt(a, b, i) {
      assert b.parts == c.parts;
      assert SmallerAt(a, c, i);
    } else if i :| SmallerAt(b, c, i) {
      assert a.parts == b.parts;
      assert SmallerAt(a, c, i);
    } else {
      assert a.parts == b.parts == c.parts;
      assert r.collate(c.suffix, a.suffix) < 0 <==> r.collate(a.suffix, c.suffix) > 0;
      assert r.collate(b.suffix, a.suffix) < 0 <==> r.collate(a.suffix, b.suffix) > 0;
      assert r.collate(c.suffix, b.suffix) < 0 <==> r.collate(b.suffix, c.suffix) > 0;
    }
  }

  lemma {:induction false} SplitFirst(piece: string, rest: string, separator: char)
    requires separator !in piece
    ensures Split(piece + [separator] + rest, separator) == [piece] + Split(rest, separator)
  {
    var s := piece + [separator] + rest;
    if piece == "" {
      assert s[1..] == rest;
    } else {
      assert s[1..] == piece[1..] + [separator] + rest;
      SplitFirst(piece[1..], rest, separator);
      assert piece == [piece[0]] + piece[1..];
    }
  }

  /** Everything behind a second hyphen is ignored, so different strings can rank the same. */
  lemma SecondHyphenIsIgnored(r: Rules, core: string, suffix: string, more: string, other: string)
    requires '-' !in core && '-' !in suffix
    ensures var left, right := core + "-" + (suffix + "-" + more), core + "-" + (suffix + "-" + other);
            !Older(r, left, right) && !Older(r, right, left)
  {
    SplitFirst(suffix, more, '-');
    SplitFirst(suffix, other, '-');
    SplitFirst(core, suffix + "-" + more, '-');
    SplitFirst(core, suffix + "-" + other, '-');
    var left, right := core + "-" + (suffix + "-" + more), core + "-" + (suffix + "-" + other);
    assert NumericVersion(r, left) == NumericVersion(r, right);
    PartsDecide(NumericVersion(r, left), NumericVersion(r, right));
  }

  // ---- Packages ----

  // An installed package and whether it is compatible.
  datatype Plugin = Plugin(id: string, version: string, compatible: bool)

  function Key(p: Plugin): string {
    p.id + "@" + p.version
  }

  // Installed ids are slugs: they hold no '@'.
  ghost predicate Slugs(plugins: seq<Plugin>) {
    forall p :: p in plugins ==> '@' !in p.id
  }

  lemma KeysTellPackages(p: Plugin, q: Plugin)
    requires '@' !in p.id && '@' !in q.id && Key(p) == Key(q)
    ensures p.id == q.id && p.version == q.version
  {
    var whole := Key(p);
    assert whole[|p.id|] == '@' && whole[|q.id|] == '@';
    assert forall i :: 0 <= i < |p.id| ==> whole[i] == p.id[i] && whole[i] != '@';
    assert forall i :: 0 <= i < |q.id| ==> whole[i] == q.id[i] && whole[i] != '@';
    assert |p.id| == |q.id|;
    assert p.id == whole[..|p.id|] && q.id == whole[..|q.id|];
    assert p.version == whole[|p.id| + 1..] && q.version == whole[|q.id| + 1..];
  }

  ghost function Latest(r: Rules, plugins: seq<Plugin>): map<string, Plugin> {
    if plugins == [] then map[]
    else
      var before, p := Latest(r, plugins[..|plugins| - 1]), plugins[|plugins| - 1];
      if p.compatible && (p.id !in before || Older(r, before[p.id].version, p.version)) then before[p.id := p]
      else before
  }

  method SelectLatest(r: Rules, plugins: seq<Plugin>) returns (latest: map<string, Plugin>)
    requires Collates(r)
    ensures latest == Latest(r, plugins)
  {
    latest := map[];
    for i := 0 to |plugins|
      invariant latest == Latest(r, plugins[..i])
    {
      assert plugins[..i + 1][..i] == plugins[..i];
      var p := plugins[i];
      if !p.compatible { continue; }
      if p.id !in latest {
        latest := latest[p.id := p];
      } else {
        var c := ComparePluginVersions(r, p.version, latest[p.id].version);
        if c > 0 { latest := latest[p.id := p]; }
      }
    }
    assert plugins[..|plugins|] == plugins;
  }

  ghost predicate InOrder(r: Rules, list: seq<Plugin>) {
    forall i, j :: 0 <= i < j < |list| ==> r.collate(list[i].id, list[j].id) <= 0
  }

  ghost predicate DistinctIds(list: seq<Plugin>) {
    forall i, j :: 0 <= i < j < |list| ==> list[i].id != list[j].id
  }

  // The selected packages, each once, in the locale's order of their ids.
  ghost predicate ListsById(r: Rules, latest: map<string, Plugin>, list: seq<Plugin>) {
    (forall p :: p in list <==> p.id in latest && latest[p.id] == p) && DistinctIds(list) && InOrder(r, list)
  }

  // Where p belongs: in front of the first package whose id does not come before its own.
  function PlaceOf(r: Rules, list: seq<Plugin>, p: Plugin): (k: nat)
    ensures k <= |list| && (k < |list| ==> r.collate(p.id, list[k].id) <= 0)
    ensures forall i :: 0 <= i < k ==> r.collate(p.id, list[i].id) > 0
  {
    if list == [] || r.collate(p.id, list[0].id) <= 0 then 0 else 1 + PlaceOf(r, list[1..], p)
  }

  lemma CollateBefore(r: Rules, list: seq<Plugin>, p: Plugin, i: nat)
    requires Collates(r) && i < PlaceOf(r, list, p)
    ensures r.collate(list[i].id, p.id) <= 0
  {
    assert r.collate(p.id, list[i].id) > 0;
  }

  lemma CollateChain(r: Rules, x: string, y: string, z: string)
    requires Collates(r) && r.collate(x, y) <= 0 && r.collate(y, z) <= 0
    ensures r.collate(x, z) <= 0
  {
  }

  lemma InOrderAt(r: Rules, list: seq<Plugin>, i: nat, j: nat)
    requires InOrder(r, list) && i < j < |list|
    ensures r.collate(list[i].id, list[j].id) <= 0
  {
  }

  lemma CollateBehind(r: Rules, list: seq<Plugin>, p: Plugin, i: nat)
    requires Collates(r) && InOrder(r, list) && PlaceOf(r, list, p) <= i < |list|
    ensures r.collate(p.id, list[i].id) <= 0
  {
    var k := PlaceOf(r, list, p);
    if k < i {
      InOrderAt(r, list, k, i);
      CollateChain(r, p.id, list[k].id, list[i].id);
    }
  }

  lemma SplicedInOrder(r: Rules, list: seq<Plugin>, k: nat, p: Plugin)
    requires k <= |list| && InOrder(r, list)
    requires forall i :: 0 <= i < k ==> r.collate(list[i].id, p.id) <= 0
    requires forall i :: k <= i < |list| ==> r.collate(p.id, list[i].id) <= 0
    ensures InOrder(r, list[..k] + [p] + list[k..])
  {
  }

  lemma SplicedDistinct(list: seq<Plugin>, k: nat, p: Plugin)
    requires k <= |list| && DistinctIds(list) && forall q :: q in list ==> q.id != p.id
    ensures var more := list[..k] + [p] + list[k..];
            DistinctIds(more) && forall q :: q in more <==> q in list || q == p
  {
    var more := list[..k] + [p] + list[k..];
    assert list == list[..k] + list[k..];
    assert forall i :: 0 <= i < |list| ==> list[i] in list;
  }

  lemma Spliced(r: Rules, list: seq<Plugin>, p: Plugin)
    requires Collates(r) && InOrder(r, list) && DistinctIds(list) && forall q :: q in list ==> q.id != p.id
    ensures var k := PlaceOf(r, list, p);
            var more := list[..k] + [p] + list[k..];
            InOrder(r, more) && DistinctIds(more) && forall q :: q in more <==> q in list || q == p
  {
    var k := PlaceOf(r, list, p);
    forall i | 0 <= i < k ensures r.collate(list[i].id, p.id) <= 0 { CollateBefore(r, list, p, i); }
    forall i | k <= i < |list| ensures r.collate(p.id, list[i].id) <= 0 { CollateBehind(r, list, p, i); }
    SplicedInOrder(r, list, k, p);
    SplicedDistinct(list, k, p);
  }

  lemma LatestHaveTheirIds(r: Rules, plugins: seq<Plugin>)
    requires Collates(r)
    ensures forall id :: id in Latest(r, plugins) ==> Latest(r, plugins)[id].id == id
  {
    forall id | id in Latest(r, plugins) ensures Latest(r, plugins)[id].id == id { LatestAreNewest(r, plugins, id); }
  }

  /** The selection, listed in the order of the ids. */
  method LatestCompatiblePlugins(r: Rules, plugins: seq<Plugin>) returns (list: seq<Plugin>)
    requires Collates(r)
    ensures ListsById(r, Latest(r, plugins), list)
  {
    var latest := SelectLatest(r, plugins);
    LatestHaveTheirIds(r, plugins);
    list := SortedById(r, latest);
  }

  method SortedById(r: Rules, latest: map<string, Plugin>) returns (list: seq<Plugin>)
    requires Collates(r) && forall id :: id in latest ==> latest[id].id == id
    ensures ListsById(r, latest, list)
  {
    var todo := latest.Keys;
    list := [];
    while todo != {}
      invariant todo <= latest.Keys
      invariant forall p :: p in list <==> p.id in latest && p.id !in todo && latest[p.id] == p
      invariant DistinctIds(list) && InOrder(r, list)
      decreases todo
    {
      var id :| id in todo;
      Spliced(r, list, latest[id]);
      var k := PlaceOf(r, list, latest[id]);
      list, todo := list[..k] + [latest[id]] + list[k..], todo - {id};
    }
  }

  // best is a compatible package of its id that no compatible package of that id is newer than.
  ghost predicate IsNewest(r: Rules, plugins: seq<Plugin>, id: string, best: Plugin) {
    best in plugins && best.compatible && best.id == id &&
    forall p :: p in plugins && p.compatible && p.id == id ==> !Older(r, best.version, p.version)
  }

  /** Every id with a compatible package, and no other, has its newest one selected. */
  lemma {:induction false} LatestAreNewest(r: Rules, plugins: seq<Plugin>, id: string)
    requires Collates(r)
    ensures id in Latest(r, plugins) <==> exists p :: p in plugins && p.compatible && p.id == id
    ensures id in Latest(r, plugins) ==> IsNewest(r, plugins, id, Latest(r, plugins)[id])
  {
    if plugins != [] {
      var rest, p := plugins[..|plugins| - 1], plugins[|plugins| - 1];
      LatestAreNewest(r, rest, id);
      assert plugins == rest + [p];
      if p.compatible && p.id == id {
        OlderIsAsymmetric(r, p.version, p.version);
        if id in Latest(r, rest) {
          forall q | q in rest && q.compatible && q.id == id && Older(r, Latest(r, rest)[id].version, p.version)
            ensures !Older(r, p.version, q.version)
          {
            OlderIsAsymmetric(r, Latest(r, rest)[id].version, p.version);
            NotOlderIsTransitive(r, q.version, Latest(r, rest)[id].version, p.version);
          }
        }
      }
    }
  }

  // ---- Superseded packages ----

  ghost function LatestKeys(r: Rules, plugins: seq<Plugin>): set<string> {
    set id | id in Latest(r, plugins) :: Key(Latest(r, plugins)[id])
  }

  // In list order; the order by id and version it is shown in is the caller's.
  ghost function Superseded(r: Rules, plugins: seq<Plugin>): set<Plugin> {
    set p | p in plugins && p.compatible && Key(p) !in LatestKeys(r, plugins)
  }

  /** A superseded package is dominated by the selected one of its id, which is another version. */
  lemma SupersededIsDominated(r: Rules, plugins: seq<Plugin>, p: Plugin)
    requires Collates(r) && p in Superseded(r, plugins)
    ensures p.id in Latest(r, plugins) && Latest(r, plugins)[p.id].version != p.version
    ensures !Older(r, Latest(r, plugins)[p.id].version, p.version)
  {
    LatestAreNewest(r, plugins, p.id);
    assert p.id in Latest(r, plugins);
    assert Key(Latest(r, plugins)[p.id]) in LatestKeys(r, plugins);
  }

  /** Every compatible package is either the version selected for its id or superseded, never both. */
  lemma SelectedOrSuperseded(r: Rules, plugins: seq<Plugin>, p: Plugin)
    requires Collates(r) && Slugs(plugins) && p in plugins && p.compatible
    ensures p.id in Latest(r, plugins)
    ensures p in Superseded(r, plugins) <==> Latest(r, plugins)[p.id].version != p.version
  {
    LatestAreNewest(r, plugins, p.id);
    if p !in Superseded(r, plugins) {
      var id :| id in Latest(r, plugins) && Key(Latest(r, plugins)[id]) == Key(p);
      LatestAreNewest(r, plugins, id);
      KeysTellPackages(Latest(r, plugins)[id], p);
    } else {
      SupersededIsDominated(r, plugins, p);
    }
  }

  /** A superseded package is really older than the selected one exactly when the two do not tie. */
  lemma SupersededIsOlderIff(r: Rules, plugins: seq<Plugin>, p: Plugin)
    requires Collates(r) && p in Superseded(r, plugins)
    ensures p.id in Latest(r, plugins)
    ensures Older(r, p.version, Latest(r, plugins)[p.id].version) <==>
            !Tie(r, p.version, Latest(r, plugins)[p.id].version)
  {
    SupersededIsDominated(r, plugins, p);
    NeitherOlderIff(r, p.version, Latest(r, plugins)[p.id].version);
  }

  // Some compatible package is another version of its id than the selected one, and ties with it.
  ghost predicate SelectedIsTied(r: Rules, plugins: seq<Plugin>) {
    exists p :: p in plugins && p.compatible && p.id in Latest(r, plugins) &&
      p.version != Latest(r, plugins)[p.id].version && Tie(r, p.version, Latest(r, plugins)[p.id].version)
  }

  /** All superseded packages are older than what supersedes them exactly when no selected version is tied. */
  lemma AllSupersededAreOlderIff(r: Rules, plugins: seq<Plugin>)
    requires Collates(r) && Slugs(plugins)
    ensures (forall p :: p in Superseded(r, plugins) ==>
               p.id in Latest(r, plugins) && Older(r, p.version, Latest(r, plugins)[p.id].version)) <==>
            !SelectedIsTied(r, plugins)
  {
    forall p | p in plugins && p.compatible
      ensures p.id in Latest(r, plugins)
      ensures p in Superseded(r, plugins) <==> Latest(r, plugins)[p.id].version != p.version
      ensures p in Superseded(r, plugins) ==>
        (Older(r, p.version, Latest(r, plugins)[p.id].version) <==>
         !Tie(r, p.version, Latest(r, plugins)[p.id].version))
    {
      SelectedOrSuperseded(r, plugins, p);
      if p in Superseded(r, plugins) { SupersededIsOlderIff(r, plugins, p); }
    }
  }

  /** The domination need not be strict: "1.0" and "1.0.0" rank the same, and the later in the list is superseded. */
  lemma SupersededNeedNotBeOlder(r: Rules, id: string)
    requires Collates(r) && r.number("0") == 0.0
    ensures var first, second := Plugin(id, "1.0", true), Plugin(id, "1.0.0", true);
            second in Superseded(r, [first, second]) && !Older(r, second.version, first.version)
  {
    var first, second := Plugin(id, "1.0", true), Plugin(id, "1.0.0", true);
    SameRank(r);
    var plugins := [first, second];
    assert plugins[..1] == [first] && [first][..0] == [];
    assert Latest(r, [first]) == map[id := first];
    assert Latest(r, plugins) == map[id := first];
    assert LatestKeys(r, plugins) == {Key(first)};
    assert |Key(first)| != |Key(second)|;
  }

  lemma SameRank(r: Rules)
    requires r.number("0") == 0.0
    ensures !Older(r, "1.0", "1.0.0") && !Older(r, "1.0.0", "1.0")
  {
    assert "1" + ['.'] + "0.0" == "1.0.0" && "0" + ['.'] + "0" == "0.0" && "1" + ['.'] + "0" == "1.0";
    SplitFirst("1", "0.0", '.');
    SplitFirst("0", "0", '.');
    SplitFirst("1", "0", '.');
    NoSeparator("0", '.');
    NoSeparator("1.0", '-');
    NoSeparator("1.0.0", '-');
    PartsDecide(NumericVersion(r, "1.0"), NumericVersion(r, "1.0.0"));
  }

  lemma {:induction false} NoSeparator(s: string, separator: char)
    requires separator !in s
    ensures Split(s, separator) == [s]
  {
    if s != "" {
      NoSeparator(s[1..], separator);
      assert s == [s[0]] + s[1..];
    }
  }

  // ---- Enabled keys ----

  function Enabled(plugins: seq<Plugin>, keys: set<string>): (e: seq<Plugin>)
    ensures forall p :: p in e <==> p in plugins && Key(p) in keys
  {
    if plugins == [] then []
    else
      assert plugins == plugins[..|plugins| - 1] + [plugins[|plugins| - 1]];
      var before, p := Enabled(plugins[..|plugins| - 1], keys), plugins[|plugins| - 1];
      if Key(p) in keys then before + [p] else before
  }

  ghost function Active(r: Rules, plugins: seq<Plugin>, keys: set<string>): map<string, Plugin> {
    Latest(r, Enabled(plugins, keys))
  }

  ghost function Migrated(r: Rules, plugins: seq<Plugin>, stored: set<string>): set<string> {
    set id | id in Latest(r, plugins) && (exists p :: p in Enabled(plugins, stored) && p.id == id) ::
      Key(Latest(r, plugins)[id])
  }

  // The keys of the installed packages of one id.
  function KeysOf(plugins: seq<Plugin>, id: string): set<string> {
    set p | p in plugins && p.id == id :: Key(p)
  }

  /** The loop that takes every version of the target's id out and puts the target in. */
  method UpdateEnabledPluginKeys(plugins: seq<Plugin>, current: set<string>, target: Plugin,
                                 enabled: bool) returns (next: set<string>)
    ensures next == current - KeysOf(plugins, target.id) + if enabled && target.compatible then {Key(target)} else {}
  {
    next := current;
    for i := 0 to |plugins|
      invariant next == current - KeysOf(plugins[..i], target.id)
    {
      assert plugins[..i + 1] == plugins[..i] + [plugins[i]];
      KeysOfNext(plugins[..i], plugins[i], target.id);
      if plugins[i].id == target.id { next := next - {Key(plugins[i])}; }
    }
    assert plugins[..|plugins|] == plugins;
    if enabled && target.compatible { next := next + {Key(target)}; }
  }

  lemma KeysOfNext(plugins: seq<Plugin>, p: Plugin, id: string)
    ensures KeysOf(plugins + [p], id) == KeysOf(plugins, id) + if p.id == id then {Key(p)} else {}
  {
    forall k | k in KeysOf(plugins, id) ensures k in KeysOf(plugins + [p], id) {
      var q :| q in plugins && q.id == id && Key(q) == k;
      assert q in plugins + [p];
    }
    assert p in plugins + [p];
  }

  ghost function Updated(plugins: seq<Plugin>, current: set<string>, target: Plugin, enabled: bool): set<string> {
    current - KeysOf(plugins, target.id) + if enabled && target.compatible then {Key(target)} else {}
  }

  lemma UpdatedKey(plugins: seq<Plugin>, current: set<string>, target: Plugin, enabled: bool, p: Plugin)
    requires Slugs(plugins) && '@' !in target.id && p in plugins
    ensures p.id == target.id ==>
              (Key(p) in Updated(plugins, current, target, enabled) <==>
               enabled && target.compatible && p.version == target.version)
    ensures p.id != target.id ==> (Key(p) in Updated(plugins, current, target, enabled) <==> Key(p) in current)
  {
    if Key(p) == Key(target) { KeysTellPackages(p, target); }
    if p.id != target.id && Key(p) in KeysOf(plugins, target.id) {
      var q :| q in plugins && q.id == target.id && Key(q) == Key(p);
      KeysTellPackages(p, q);
      assert false;
    }
  }

  // The newest of an id depends on the packages of that id alone.
  lemma {:induction false} LatestOfOneId(r: Rules, plugins: seq<Plugin>, keys: set<string>, others: set<string>,
                                         id: string)
    requires forall p :: p in plugins && p.id == id ==> (Key(p) in keys <==> Key(p) in others)
    ensures id in Active(r, plugins, keys) <==> id in Active(r, plugins, others)
    ensures id in Active(r, plugins, keys) ==> Active(r, plugins, keys)[id] == Active(r, plugins, others)[id]
  {
    if plugins != [] {
      var rest, p := plugins[..|plugins| - 1], plugins[|plugins| - 1];
      assert plugins == rest + [p];
      LatestOfOneId(r, rest, keys, others, id);
      LatestWithOneMore(r, rest, p, keys);
      LatestWithOneMore(r, rest, p, others);
    }
  }

  lemma LatestWithOneMore(r: Rules, rest: seq<Plugin>, p: Plugin, keys: set<string>)
    ensures Active(r, rest + [p], keys) ==
            var before := Active(r, rest, keys);
            if Key(p) in keys && p.compatible && (p.id !in before || Older(r, before[p.id].version, p.version))
            then before[p.id := p] else before
  {
    assert (rest + [p])[..|rest|] == rest;
    var e := Enabled(rest, keys);
    if Key(p) in keys { assert (e + [p])[..|e|] == e; }
  }

  /**
    Enabling a compatible installed package makes it the one active version of its id;
    every other id's active version stays as it was.
  */
  lemma EnablingMakesItTheActiveOne(r: Rules, plugins: seq<Plugin>, current: set<string>, target: Plugin, id: string)
    requires Collates(r) && Slugs(plugins) && target in plugins && target.compatible
    ensures var before := Active(r, plugins, current);
            var after := Active(r, plugins, Updated(plugins, current, target, true));
            target.id in after && after[target.id].version == target.version &&
            (id != target.id ==> (id in after <==> id in before) && (id in after ==> after[id] == before[id]))
    ensures forall p :: p in plugins && p.id == target.id && Key(p) in Updated(plugins, current, target, true) ==>
              p.version == target.version
  {
    var next := Updated(plugins, current, target, true);
    forall p | p in plugins
      ensures p.id == target.id ==> (Key(p) in next <==> p.version == target.version)
      ensures p.id != target.id ==> (Key(p) in next <==> Key(p) in current)
    {
      UpdatedKey(plugins, current, target, true, p);
    }
    LatestAreNewest(r, Enabled(plugins, next), target.id);
    assert target in Enabled(plugins, next);
    if id != target.id { LatestOfOneId(r, plugins, current, next, id); }
  }

  /**
    Disabling a package, or enabling an incompatible one, leaves its id without an active version and the others
    alone.
  */
  lemma DisablingLeavesNone(r: Rules, plugins: seq<Plugin>, current: set<string>, target: Plugin, enabled: bool,
                            id: string)
    requires Collates(r) && Slugs(plugins) && target in plugins && !(enabled && target.compatible)
    ensures var before := Active(r, plugins, current);
            var after := Active(r, plugins, Updated(plugins, current, target, enabled));
            target.id !in after &&
            (id != target.id ==> (id in after <==> id in before) && (id in after ==> after[id] == before[id]))
  {
    var next := Updated(plugins, current, target, enabled);
    forall p | p in plugins
      ensures p.id == target.id ==> Key(p) !in next
      ensures p.id != target.id ==> (Key(p) in next <==> Key(p) in current)
    {
      UpdatedKey(plugins, current, target, enabled, p);
    }
    LatestAreNewest(r, Enabled(plugins, next), target.id);
    if id != target.id { LatestOfOneId(r, plugins, current, next, id); }
  }

  /**
    An installed package's key is migrated exactly when it is the newest of its id and the user had that id enabled.
  */
  lemma MigratedKeyIff(r: Rules, plugins: seq<Plugin>, stored: set<string>, p: Plugin)
    requires Collates(r) && Slugs(plugins) && p in plugins
    ensures Key(p) in Migrated(r, plugins, stored) <==>
            p.id in Latest(r, plugins) && Latest(r, plugins)[p.id].version == p.version &&
            exists q :: q in plugins && q.id == p.id && Key(q) in stored
  {
    if Key(p) in Migrated(r, plugins, stored) {
      var id :| id in Latest(r, plugins) && (exists q :: q in Enabled(plugins, stored) && q.id == id) &&
                Key(Latest(r, plugins)[id]) == Key(p);
      LatestAreNewest(r, plugins, id);
      KeysTellPackages(Latest(r, plugins)[id], p);
    }
    if p.id in Latest(r, plugins) && Latest(r, plugins)[p.id].version == p.version {
      LatestAreNewest(r, plugins, p.id);
      if q :| q in plugins && q.id == p.id && Key(q) in stored { assert q in Enabled(plugins, stored); }
    }
  }

  /** No two versions of an id are enabled after migration. */
  lemma OneKeyPerId(r: Rules, plugins: seq<Plugin>, stored: set<string>, p: Plugin, q: Plugin)
    requires Collates(r) && Slugs(plugins) && p in plugins && q in plugins && p.id == q.id
    requires Key(p) in Migrated(r, plugins, stored) && Key(q) in Migrated(r, plugins, stored)
    ensures Key(p) == Key(q)
  {
    MigratedKeyIff(r, plugins, stored, p);
    MigratedKeyIff(r, plugins, stored, q);
  }

  // An id stays enabled through a migration exactly when it has a compatible package.
  lemma EnabledIdsStay(r: Rules, plugins: seq<Plugin>, stored: set<string>, id: string)
    requires Collates(r) && Slugs(plugins) && id in Latest(r, plugins)
    ensures (exists p :: p in Enabled(plugins, Migrated(r, plugins, stored)) && p.id == id) <==>
            exists p :: p in Enabled(plugins, stored) && p.id == id
  {
    LatestAreNewest(r, plugins, id);
    var best := Latest(r, plugins)[id];
    MigratedKeyIff(r, plugins, stored, best);
    if p :| p in Enabled(plugins, stored) && p.id == id {
      assert best in Enabled(plugins, Migrated(r, plugins, stored));
    }
    if p :| p in Enabled(plugins, Migrated(r, plugins, stored)) && p.id == id {
      MigratedKeyIff(r, plugins, stored, p);
      var q :| q in plugins && q.id == id && Key(q) in stored;
      assert q in Enabled(plugins, stored);
    }
  }

  /** Migrating the enabled keys a second time changes nothing. */
  lemma MigrationIsIdempotent(r: Rules, plugins: seq<Plugin>, stored: set<string>)
    requires Collates(r) && Slugs(plugins)
    ensures Migrated(r, plugins, Migrated(r, plugins, stored)) == Migrated(r, plugins, stored)
  {
    forall id | id in Latest(r, plugins)
      ensures (exists p :: p in Enabled(plugins, Migrated(r, plugins, stored)) && p.id == id) <==>
              exists p :: p in Enabled(plugins, stored) && p.id == id
    {
      EnabledIdsStay(r, plugins, stored, id);
    }
  }

  /** After migration the active version of every id that stays enabled is the newest compatible one installed. */
  lemma MigrationActivatesTheNewest(r: Rules, plugins: seq<Plugin>, stored: set<string>, id: string)
    requires Collates(r) && Slugs(plugins)
    ensures var active := Active(r, plugins, Migrated(r, plugins, stored));
            (id in active <==>
             id in Latest(r, plugins) && exists p :: p in plugins && p.id == id && Key(p) in stored) &&
            (id in active ==> Key(active[id]) == Key(Latest(r, plugins)[id]))
  {
    var keys := Migrated(r, plugins, stored);
    LatestAreNewest(r, Enabled(plugins, keys), id);
    LatestAreNewest(r, plugins, id);
    if id in Active(r, plugins, keys) {
      MigratedKeyIff(r, plugins, stored, Active(r, plugins, keys)[id]);
    }
    if id in Latest(r, plugins) && exists p :: p in plugins && p.id == id && Key(p) in stored {
      MigratedKeyIff(r, plugins, stored, Latest(r, plugins)[id]);
      assert Latest(r, plugins)[id] in Enabled(plugins, keys);
    }
  }

  // ---- The order on the versions people write ----

  lemma {:induction false} OnePiece(s: string, separator: char)
    requires separator !in s
    ensures Split(s, separator) == [s]
  {
    if s != "" {
      assert s[0] in s && forall c :: c in s[1..] ==> c in s;
      OnePiece(s[1..], separator);
      assert [s[0]] + s[1..] == s;
    }
  }

  predicate IsPlain(s: string) {
    '.' !in s && '-' !in s
  }

  // Three pieces, and a suffix if there is one.
  function Spelled(a: string, b: string, c: string, suffix: Option<string>): string {
    a + "." + (b + "." + c) + if suffix.Some? then "-" + suffix.value else ""
  }

  /** A version written with three pieces and a suffix is read as their numbers and that suffix. */
  lemma SpelledIsRead(r: Rules, a: string, b: string, c: string, suffix: Option<string>)
    requires IsPlain(a) && IsPlain(b) && IsPlain(c) && (suffix.Some? ==> '-' !in suffix.value)
    ensures NumericVersion(r, Spelled(a, b, c, suffix)) ==
            Version([r.number(a), r.number(b), r.number(c)], suffix.GetOr(""))
  {
    var core := a + "." + (b + "." + c);
    SplitFirst(a, b + "." + c, '.');
    SplitFirst(b, c, '.');
    OnePiece(c, '.');
    assert Split(core, '.') == [a] + ([b] + [c]);
    assert '-' !in core;
    if suffix.Some? {
      SplitFirst(core, suffix.value, '-');
      OnePiece(suffix.value, '-');
      assert Spelled(a, b, c, suffix) == core + ['-'] + suffix.value;
      assert Split(Spelled(a, b, c, suffix), '-') == [core, suffix.value];
    } else {
      OnePiece(core, '-');
      assert Spelled(a, b, c, suffix) == core;
    }
  }

  /**
    Written versions are ordered by their first number, then the second, then the third; with the same three, one
    with a suffix comes before the one without, and two suffixes are ordered by the collation.
  */
  lemma SpelledOrder(r: Rules, a: string, b: string, c: string, s: Option<string>,
                     a': string, b': string, c': string, s': Option<string>)
    requires IsPlain(a) && IsPlain(b) && IsPlain(c) && (s.Some? ==> '-' !in s.value && s.value != "")
    requires IsPlain(a') && IsPlain(b') && IsPlain(c') && (s'.Some? ==> '-' !in s'.value && s'.value != "")
    ensures Older(r, Spelled(a, b, c, s), Spelled(a', b', c', s')) <==>
            r.number(a) < r.number(a') ||
            (r.number(a) == r.number(a') &&
             (r.number(b) < r.number(b') ||
              (r.number(b) == r.number(b') &&
               (r.number(c) < r.number(c') ||
                (r.number(c) == r.number(c') && s.Some? &&
                 (s'.None? || (s.value != s'.value && r.collate(s.value, s'.value) < 0)))))))
  {
    SpelledIsRead(r, a, b, c, s);
    SpelledIsRead(r, a', b', c', s');
    var v, w := NumericVersion(r, Spelled(a, b, c, s)), NumericVersion(r, Spelled(a', b', c', s'));
    ThreeParts(v, w);
  }

  lemma ThreeParts(v: Version, w: Version)
    requires |v.parts| == |w.parts| == 3
    ensures v.parts == w.parts <==> v.parts[0] == w.parts[0] && v.parts[1] == w.parts[1] && v.parts[2] == w.parts[2]
    ensures (exists i :: SmallerAt(v, w, i)) <==>
            v.parts[0] < w.parts[0] ||
            (v.parts[0] == w.parts[0] &&
             (v.parts[1] < w.parts[1] || (v.parts[1] == w.parts[1] && v.parts[2] < w.parts[2])))
  {
    assert SmallerAt(v, w, 0) <==> v.parts[0] < w.parts[0];
    assert v.parts[..1] == [v.parts[0]] && w.parts[..1] == [w.parts[0]];
    assert SmallerAt(v, w, 1) <==> v.parts[0] == w.parts[0] && v.parts[1] < w.parts[1];
    assert v.parts[..2] == [v.parts[0], v.parts[1]] && w.parts[..2] == [w.parts[0], w.parts[1]];
    assert SmallerAt(v, w, 2) <==>
           v.parts[0] == w.parts[0] && v.parts[1] == w.parts[1] && v.parts[2] < w.parts[2];
    assert forall i: nat :: SmallerAt(v, w, i) ==> i == 0 || i == 1 || i == 2;
  }

  /** Missing pieces count as zero, and a fourth piece does not count. */
  lemma OtherPiecesAreRead(r: Rules, a: string, b: string, c: string, d: string)
    requires IsPlain(a) && IsPlain(b) && IsPlain(c) && IsPlain(d)
    ensures NumericVersion(r, a) == Version([r.number(a), 0.0, 0.0], "")
    ensures NumericVersion(r, a + "." + b) == Version([r.number(a), r.number(b), 0.0], "")
    ensures NumericVersion(r, a + "." + (b + "." + (c + "." + d))) ==
            Version([r.number(a), r.number(b), r.number(c)], "")
  {
    OnePiece(a, '-');
    OnePiece(a, '.');
    OnePiece(b, '.');
    SplitFirst(a, b, '.');
    OnePiece(a + "." + b, '-');
    OnePiece(d, '.');
    SplitFirst(c, d, '.');
    SplitFirst(b, c + "." + d, '.');
    SplitFirst(a, b + "." + (c + "." + d), '.');
    OnePiece(a + "." + (b + "." + (c + "." + d)), '-');
  }
}
