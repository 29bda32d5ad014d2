/**
 * The app-import manifest: each line `type.name=uri` registers the app side of an entry and
 * each line `type.name.metadata=uri` its metadata side. Entries are keyed by the type, the
 * name and the version read from the uri, glued together; the first line of a key creates
 * the entry and later lines of that key overwrite the range and the uri of their side.
 */
module AppService {
  import opened Wrappers
  import opened Text
  import opened Ranges

  /** An app entry: fixed at creation are the type, name and version; each side has a range and a uri. */
  datatype AppEntry = AppEntry(
    appType: string, name: string, version: string,
    appRange: Option<Range>, metadataRange: Option<Range>,
    appUri: Option<string>, metadataUri: Option<string>)

  /**
   * The version a uri names, as a total function. The source reads it from `maven`, `docker`,
   * `http` and `https` uris, gives the empty string for other schemes, and throws on a uri it
   * cannot read; that reading is not part of this model.
   */
  type VersionOf = string -> string

  const MetadataSuffix := "-metadata"

  /** The key of an entry: type, name and version concatenated. */
  function AppKey(appType: string, name: string, version: string): (r: string)
    ensures |r| == |appType| + |name| + |version|
  {
    appType + name + version
  }

  /** The key of a metadata line: the app key without a trailing `-metadata`. */
  function MetadataKey(appType: string, name: string, version: string): (r: string)
  {
    var key := AppKey(appType, name, version);
    if |key| >= |MetadataSuffix| && key[|key| - |MetadataSuffix|..] == MetadataSuffix
    then key[..|key| - |MetadataSuffix|] else key
  }

  datatype Side = AppSide | MetadataSide

  /** What one manifest line contributes: which side, the key, the entry fields and the side's range and uri. */
  datatype Registration = Registration(side: Side, key: string, appType: string, name: string, version: string, range: Range, uri: string)

  /** The reading of line `line`: which side of which entry it registers, if any. */
  function Register(line: nat, text: string, versionOf: VersionOf): (r: Option<Registration>)
    ensures r.Some? ==> '=' !in r.value.uri && r.value.version == versionOf(r.value.uri)
    ensures r.Some? ==>
      var e := r.value.range.end.character;
      r.value.range == Range(Position(line, 0), Position(line, e)) && e < |text| && '=' !in text[..e]
    ensures r.Some? ==> '.' !in r.value.appType && '.' !in r.value.name
    ensures r.Some? && r.value.side == AppSide ==> r.value.key == AppKey(r.value.appType, r.value.name, r.value.version)
  {
    var kv := JavaSplit(text, '=');
    if |kv| != 2 then None
    else
      JavaSplitTwo(text, '=');
      var parts := JavaSplit(kv[0], '.');
      var version := versionOf(kv[1]);
      var range := Range(Position(line, 0), Position(line, |kv[0]|));
      if |parts| == 2 then
        Some(Registration(AppSide, AppKey(parts[0], parts[1], version), parts[0], parts[1], version, range, kv[1]))
      else if |parts| == 3 then
        Some(Registration(MetadataSide, MetadataKey(parts[0], parts[1], version), parts[0], parts[1], version, range, kv[1]))
      else None
  }

  /**
   * A line is used only when it splits on `=` into two pieces and its key part splits on `.`
   * into two pieces (app side) or three (metadata side); the entry fields are the first two
   * parts of the key and the version of the uri, and the range covers the key part.
   */
  lemma RegisterShape(line: nat, text: string, versionOf: VersionOf)
    ensures var r := Register(line, text, versionOf);
      r.Some? <==> |JavaSplit(text, '=')| == 2 && |JavaSplit(JavaSplit(text, '=')[0], '.')| in {2, 3}
    ensures var r := Register(line, text, versionOf);
      r.Some? ==>
      var kv := JavaSplit(text, '=');
      var parts := JavaSplit(kv[0], '.');
      && r.value.appType == parts[0] && r.value.name == parts[1]
      && r.value.version == versionOf(kv[1]) && r.value.uri == kv[1]
      && r.value.range == Range(Position(line, 0), Position(line, |kv[0]|))
      && (r.value.side == AppSide <==> |parts| == 2)
      && (r.value.side == AppSide ==> r.value.key == AppKey(parts[0], parts[1], r.value.version))
  {
  }

  /** The entry a registration creates. */
  function Create(g: Registration): (r: AppEntry)
    ensures r.appType == g.appType && r.name == g.name && r.version == g.version
  {
    match g.side
    case AppSide => AppEntry(g.appType, g.name, g.version, Some(g.range), None, Some(g.uri), None)
    case MetadataSide => AppEntry(g.appType, g.name, g.version, None, Some(g.range), None, Some(g.uri))
  }

  /** An existing entry after a registration of its key: only that side's range and uri change. */
  function Update(e: AppEntry, g: Registration): (r: AppEntry)
    ensures r.appType == e.appType && r.name == e.name && r.version == e.version
  {
    match g.side
    case AppSide => e.(appRange := Some(g.range), appUri := Some(g.uri))
    case MetadataSide => e.(metadataRange := Some(g.range), metadataUri := Some(g.uri))
  }

  /** The entries after one more line. */
  function Apply(apps: map<string, AppEntry>, g: Option<Registration>): (r: map<string, AppEntry>)
    ensures g.None? ==> r == apps
    ensures g.Some? ==> r.Keys == apps.Keys + {g.value.key}
  {
    match g
    case None => apps
    case Some(reg) =>
      if reg.key in apps then apps[reg.key := Update(apps[reg.key], reg)]
      else apps[reg.key := Create(reg)]
  }

  /** The entries after the first `n` lines. */
  function AppsUpTo(doc: seq<string>, versionOf: VersionOf, n: nat): map<string, AppEntry>
    requires n <= |doc|
  {
    if n == 0 then map[]
    else Apply(AppsUpTo(doc, versionOf, n - 1), Register(n - 1, doc[n - 1], versionOf))
  }

  /** parseApps: the entries of the manifest, keyed. */
  function Apps(doc: seq<string>, versionOf: VersionOf): (r: map<string, AppEntry>)
    ensures |r| <= |doc|
    ensures forall k :: EntryAgrees(doc, versionOf, |doc|, r, k)
  {
    AppsCount(doc, versionOf, |doc|);
    AppsAgree(doc, versionOf, |doc|);
    AppsUpTo(doc, versionOf, |doc|)
  }

  /** parseApps, line by line, updating the entries in the map. */
  method ParseApps(doc: seq<string>, versionOf: VersionOf) returns (apps: map<string, AppEntry>)
    ensures apps == Apps(doc, versionOf)
  {
    apps := map[];
    for line := 0 to |doc|
      invariant apps == AppsUpTo(doc, versionOf, line)
    {
      apps := ParseLine(apps, line, doc[line], versionOf);
    }
  }

  /** The body of the loop of parseApps: one line's update of the entries. */
  method ParseLine(apps: map<string, AppEntry>, line: nat, content: string, versionOf: VersionOf) returns (next: map<string, AppEntry>)
    ensures next == Apply(apps, Register(line, content, versionOf))
  {
    next := apps;
    ghost var g := Register(line, content, versionOf);
    var split1 := JavaSplit(content, '=');
    if |split1| == 2 {
      var split2 := JavaSplit(split1[0], '.');
      var version := versionOf(split1[1]);
      var range := Range(Position(line, 0), Position(line, |split1[0]|));
      if |split2| == 2 {
        var name := AppKey(split2[0], split2[1], version);
        assert g == Some(Registration(AppSide, name, split2[0], split2[1], version, range, split1[1]));
        if name !in next {
          next := next[name := AppEntry(split2[0], split2[1], version, Some(range), None, Some(split1[1]), None)];
        } else {
          next := next[name := next[name].(appRange := Some(range), appUri := Some(split1[1]))];
        }
      } else if |split2| == 3 {
        var name := AppKey(split2[0], split2[1], version);
        if |name| >= |MetadataSuffix| && name[|name| - |MetadataSuffix|..] == MetadataSuffix {
          name := name[..|name| - |MetadataSuffix|];
        }
        assert g == Some(Registration(MetadataSide, name, split2[0], split2[1], version, range, split1[1]));
        if name !in next {
          next := next[name := AppEntry(split2[0], split2[1], version, None, Some(range), None, Some(split1[1]))];
        } else {
          next := next[name := next[name].(metadataRange := Some(range), metadataUri := Some(split1[1]))];
        }
      }
    }
  }

  /** `order` lists every key of `apps` once: the order in which the map hands out its entries. */
  predicate IterationOrder(apps: map<string, AppEntry>, order: seq<string>)
  {
    && (forall i, j :: 0 <= i < j < |order| ==> order[i] != order[j])
    && (forall k :: k in order ==> k in apps)
    && (forall k :: k in apps ==> k in order)
  }

  /** The entries of the map, in an iteration order. */
  function Values(apps: map<string, AppEntry>, order: seq<string>): (r: seq<AppEntry>)
    requires IterationOrder(apps, order)
    ensures |r| == |order| && forall i :: 0 <= i < |r| ==> r[i] == apps[order[i]]
  {
    seq(|order|, i requires 0 <= i < |order| => apps[order[i]])
  }

  /** Listing each key once, an iteration order has as many keys as the map. */
  lemma IterationOrderLength(apps: map<string, AppEntry>, order: seq<string>)
    requires IterationOrder(apps, order)
    ensures |order| == |apps|
  {
    DistinctElements(order);
    assert (set k | k in order) == apps.Keys;
  }

  lemma {:induction false} DistinctElements(order: seq<string>)
    requires forall i, j :: 0 <= i < j < |order| ==> order[i] != order[j]
    ensures |set k | k in order| == |order|
    decreases |order|
  {
    if |order| > 0 {
      var front := order[..|order| - 1];
      DistinctElements(front);
      assert (set k | k in order) == (set k | k in front) + {order[|order| - 1]};
      assert order[|order| - 1] !in front;
    }
  }

  /** The registration of line `i`, when it registers key `k`. */
  predicate Registers(doc: seq<string>, versionOf: VersionOf, i: nat, k: string)
    requires i < |doc|
  {
    Register(i, doc[i], versionOf).Some? && Register(i, doc[i], versionOf).value.key == k
  }

  /** The first of the first `n` lines that registers key `k`. */
  function FirstRegistration(doc: seq<string>, versionOf: VersionOf, n: nat, k: string): (r: Option<Registration>)
    requires n <= |doc|
  {
    if n == 0 then None
    else
      var earlier := FirstRegistration(doc, versionOf, n - 1, k);
      if earlier.Some? then earlier
      else if Registers(doc, versionOf, n - 1, k) then Register(n - 1, doc[n - 1], versionOf)
      else None
  }

  /** The last of the first `n` lines that registers key `k` on side `side`. */
  function LastRegistration(doc: seq<string>, versionOf: VersionOf, n: nat, k: string, side: Side): (r: Option<Registration>)
    requires n <= |doc|
  {
    if n == 0 then None
    else if Registers(doc, versionOf, n - 1, k) && Register(n - 1, doc[n - 1], versionOf).value.side == side
    then Register(n - 1, doc[n - 1], versionOf)
    else LastRegistration(doc, versionOf, n - 1, k, side)
  }

  /** The entry the lines of a key make: fields from the first, each side from its last. */
  function EntryOf(first: Registration, lastApp: Option<Registration>, lastMetadata: Option<Registration>): AppEntry
  {
    AppEntry(first.appType, first.name, first.version,
      if lastApp.Some? then Some(lastApp.value.range) else None,
      if lastMetadata.Some? then Some(lastMetadata.value.range) else None,
      if lastApp.Some? then Some(lastApp.value.uri) else None,
      if lastMetadata.Some? then Some(lastMetadata.value.uri) else None)
  }

  /** What the first `n` lines make of key `k`. */
  predicate EntryAgrees(doc: seq<string>, versionOf: VersionOf, n: nat, apps: map<string, AppEntry>, k: string)
    requires n <= |doc|
  {
    && (k in apps <==> FirstRegistration(doc, versionOf, n, k).Some?)
    && (k in apps ==> apps[k] == EntryOf(FirstRegistration(doc, versionOf, n, k).value,
          LastRegistration(doc, versionOf, n, k, AppSide), LastRegistration(doc, versionOf, n, k, MetadataSide)))
  }

  /** A key no line registers has no last registration either. */
  lemma {:induction false} NoFirstNoLast(doc: seq<string>, versionOf: VersionOf, n: nat, k: string, side: Side)
    requires n <= |doc| && FirstRegistration(doc, versionOf, n, k).None?
    ensures LastRegistration(doc, versionOf, n, k, side).None?
  {
    if n > 0 {
      NoFirstNoLast(doc, versionOf, n - 1, k, side);
    }
  }

  lemma ApplyOwnKey(doc: seq<string>, versionOf: VersionOf, n: nat, k: string)
    requires n < |doc| && Registers(doc, versionOf, n, k)
    requires EntryAgrees(doc, versionOf, n, AppsUpTo(doc, versionOf, n), k)
    ensures EntryAgrees(doc, versionOf, n + 1, AppsUpTo(doc, versionOf, n + 1), k)
  {
    var g := Register(n, doc[n], versionOf).value;
    var first := FirstRegistration(doc, versionOf, n, k);
    var lastApp := LastRegistration(doc, versionOf, n, k, AppSide);
    var lastMetadata := LastRegistration(doc, versionOf, n, k, MetadataSide);
    if first.None? {
      NoFirstNoLast(doc, versionOf, n, k, AppSide);
      NoFirstNoLast(doc, versionOf, n, k, MetadataSide);
    }
    ApplyEntry(AppsUpTo(doc, versionOf, n), g, first, lastApp, lastMetadata);
    assert AppsUpTo(doc, versionOf, n + 1) == Apply(AppsUpTo(doc, versionOf, n), Some(g));
  }

  /**
   * A registration of an entry that agrees with its first and last registrations gives the
   * entry of the registrations with this one added: it is the first when there was none, and
   * the last of its side.
   */
  lemma ApplyEntry(before: map<string, AppEntry>, g: Registration, first: Option<Registration>,
                   lastApp: Option<Registration>, lastMetadata: Option<Registration>)
    requires g.key in before <==> first.Some?
    requires g.key in before ==> before[g.key] == EntryOf(first.value, lastApp, lastMetadata)
    requires first.None? ==> lastApp.None? && lastMetadata.None?
    ensures var first' := if first.Some? then first.value else g;
      Apply(before, Some(g))[g.key] == EntryOf(first',
        if g.side == AppSide then Some(g) else lastApp,
        if g.side == MetadataSide then Some(g) else lastMetadata)
  {
  }

  /** One line changes only the entry of its own key, as the first-and-last reading says. */
  lemma ApplyAgrees(doc: seq<string>, versionOf: VersionOf, n: nat, k: string)
    requires n < |doc|
    requires EntryAgrees(doc, versionOf, n, AppsUpTo(doc, versionOf, n), k)
    ensures EntryAgrees(doc, versionOf, n + 1, AppsUpTo(doc, versionOf, n + 1), k)
  {
    var g := Register(n, doc[n], versionOf);
    var before := AppsUpTo(doc, versionOf, n);
    assert AppsUpTo(doc, versionOf, n + 1) == Apply(before, g);
    if g.Some? && g.value.key == k {
      assert Registers(doc, versionOf, n, k);
      ApplyOwnKey(doc, versionOf, n, k);
    } else {
      assert !Registers(doc, versionOf, n, k);
      assert FirstRegistration(doc, versionOf, n + 1, k) == FirstRegistration(doc, versionOf, n, k);
      assert LastRegistration(doc, versionOf, n + 1, k, AppSide) == LastRegistration(doc, versionOf, n, k, AppSide);
      assert LastRegistration(doc, versionOf, n + 1, k, MetadataSide) == LastRegistration(doc, versionOf, n, k, MetadataSide);
    }
  }

  /**
   * Every key of the manifest names the entry its lines make: the type, name and version of
   * the first line with that key, and on each side the range and uri of the last line with
   * that key on that side. Later lines win; no other entry is touched.
   */
  lemma {:induction false} AppsAgree(doc: seq<string>, versionOf: VersionOf, n: nat)
    requires n <= |doc|
    ensures forall k :: EntryAgrees(doc, versionOf, n, AppsUpTo(doc, versionOf, n), k)
  {
    if n > 0 {
      AppsAgree(doc, versionOf, n - 1);
      forall k
        ensures EntryAgrees(doc, versionOf, n, AppsUpTo(doc, versionOf, n), k)
      {
        ApplyAgrees(doc, versionOf, n - 1, k);
      }
    }
  }

  /** There are never more entries than lines. */
  lemma {:induction false} AppsCount(doc: seq<string>, versionOf: VersionOf, n: nat)
    requires n <= |doc|
    ensures |AppsUpTo(doc, versionOf, n)| <= n
  {
    if n > 0 {
      AppsCount(doc, versionOf, n - 1);
      var before := AppsUpTo(doc, versionOf, n - 1);
      var g := Register(n - 1, doc[n - 1], versionOf);
      if g.Some? {
        assert AppsUpTo(doc, versionOf, n).Keys == before.Keys + {g.value.key};
        assert |before.Keys + {g.value.key}| <= |before.Keys| + 1;
      }
    }
  }

  /** A line with two `=` registers nothing. */
  lemma TwoEqualsIgnored(line: nat, versionOf: VersionOf)
    ensures Register(line, "a.b=c=d", versionOf).None?
  {
    var text := "a.b=c=d";
    assert CharIndexFrom(text, '=', 0) == 3 by {
      assert text[3] == '=' && text[0] != '=' && text[1] != '=' && text[2] != '=';
    }
    assert CharIndexFrom(text, '=', 4) == 5 by {
      assert text[5] == '=' && text[4] != '=';
    }
    assert CharIndexFrom(text, '=', 6) == 7 by {
      assert text[6] != '=';
    }
    var pieces := PiecesFrom(text, '=', 0);
    assert PiecesFrom(text, '=', 6) == [text[6..]];
    assert pieces == [text[..3], text[4..5], text[6..]];
    assert NonEmptyEnd(pieces, 3) == 3;
    assert |JavaSplit(text, '=')| == 3;
  }

  /** Two versions of the same app are two entries. */
  lemma VersionsSeparate(appType: string, name: string, v1: string, v2: string)
    requires v1 != v2
    ensures AppKey(appType, name, v1) != AppKey(appType, name, v2)
  {
    var k1 := AppKey(appType, name, v1);
    var k2 := AppKey(appType, name, v2);
    if |v1| == |v2| {
      assert k1[|appType| + |name|..] == v1 && k2[|appType| + |name|..] == v2;
    }
  }

  /**
   * Gluing the parts together loses where they meet: the apps `ab.c` and `a.bc` of the same
   * version share one key, so a manifest holding both keeps one entry.
   */
  lemma KeysMeet(version: string)
    ensures AppKey("ab", "c", version) == AppKey("a", "bc", version)
  {
  }
}
