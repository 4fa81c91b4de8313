/** The helpers the two plugin-marketplace scripts share
    (scripts/validate-cursor-plugins.mjs, scripts/validate-claude-plugins.mjs):
    safe relative paths, the paths a manifest field lists, the kebab-case
    name patterns, the duplicate-name scan and the checks on the
    marketplace file's own fields. */
module Manifest {
  import opened Wrappers
  import opened Text
  import opened Regex
  import opened Json

  // ---------------------------------------------------------------- paths

  /** A path that may be resolved under the repository: not empty, not
      absolute, not home-relative, and with no `..` anywhere in it. */
  predicate IsSafePath(p: string) {
    |p| > 0 && !StartsWith(p, "/") && !StartsWith(p, "~") && !Contains(p, "..")
  }

  /** `isSafeRelativePath(p)` for any value: only non-empty strings can be
      safe. */
  predicate IsSafeRelativePath(p: Option<Json>) {
    match p
    case Some(JString(s)) => IsSafePath(s)
    case _ => false
  }

  /** A safe path, character by character: a first character that is not
      `/` or `~`, and no two consecutive dots. */
  lemma SafePathChars(p: string)
    ensures IsSafePath(p) <==>
      |p| > 0 && p[0] != '/' && p[0] != '~' &&
      forall i | 0 <= i < |p| - 1 :: !(p[i] == '.' && p[i + 1] == '.')
  {
    if |p| > 0 {
      assert StartsWith(p, "/") <==> p[0] == '/' by { assert p[..1] == [p[0]]; }
      assert StartsWith(p, "~") <==> p[0] == '~' by { assert p[..1] == [p[0]]; }
    }
    if Contains(p, "..") {
      var i :| 0 <= i <= |p| && OccursAt(p, "..", i);
      assert p[i..i + 2][0] == p[i] && p[i..i + 2][1] == p[i + 1];
    }
    forall i | 0 <= i < |p| - 1 && p[i] == '.' && p[i + 1] == '.'
      ensures Contains(p, "..")
    {
      assert p[i..i + 2] == "..";
      assert OccursAt(p, "..", i);
    }
  }

  /** The path checks on a few typical values. */
  lemma SafePathExamples()
    ensures IsSafePath("skills") && IsSafePath("./skills") && IsSafePath("plugins/redis")
    ensures !IsSafePath("") && !IsSafePath("/etc") && !IsSafePath("~/x")
    ensures !IsSafePath("../x") && !IsSafePath("a..b")
  {
    SafePathChars("skills");
    SafePathChars("./skills");
    SafePathChars("plugins/redis");
    SafePathChars("/etc");
    SafePathChars("~/x");
    SafePathChars("../x");
    SafePathChars("a..b");
    assert "a..b"[1] == '.' && "a..b"[2] == '.';
    assert "../x"[0] == '.' && "../x"[1] == '.';
  }

  /** The string elements of an array, in order. */
  function Strings(items: seq<Json>): (r: seq<string>)
    ensures |r| <= |items|
    ensures forall s :: s in r <==> JString(s) in items
  {
    if |items| == 0 then []
    else
      var rest := Strings(items[1..]);
      assert forall x :: x in items <==> x == items[0] || x in items[1..];
      (if items[0].JString? then [items[0].s] else []) + rest
  }

  /** Filtering distributes over concatenation. */
  lemma {:induction false} StringsAppend(a: seq<Json>, b: seq<Json>)
    ensures Strings(a + b) == Strings(a) + Strings(b)
  {
    if |a| == 0 {
      assert a + b == b;
    } else {
      assert (a + b)[1..] == a[1..] + b;
      StringsAppend(a[1..], b);
    }
  }

  /** An array of strings keeps every element. */
  lemma {:induction false} StringsOfStrings(items: seq<Json>)
    requires forall i | 0 <= i < |items| :: items[i].JString?
    ensures |Strings(items)| == |items|
    ensures forall i | 0 <= i < |items| :: Strings(items)[i] == items[i].s
  {
    if |items| > 0 {
      StringsOfStrings(items[1..]);
    }
  }

  /** `extractPaths(value)`: a string is one path, an array lists the
      paths among its elements, anything else lists none. */
  function ExtractPaths(v: Json): (paths: seq<string>)
    ensures forall p :: p in paths <==> v == JString(p) || (v.JArray? && JString(p) in v.items)
    ensures !v.JString? && !v.JArray? ==> paths == []
    ensures v.JString? ==> paths == [v.s]
    ensures v.JArray? ==> paths == Strings(v.items)
  {
    match v
    case JString(s) => [s]
    case JArray(items) => Strings(items)
    case _ => []
  }

  // ---------------------------------------------------------------- names

  /** `^[a-z0-9](?:[middle]*[a-z0-9])?$` */
  function KebabPattern(middle: CharClass): Re {
    Cat(Class(LowerAlnum), Opt(Cat(Star(Class(middle)), Class(LowerAlnum))))
  }

  /** `NAME_PATTERN`: lower-case letters, digits, hyphens and periods. */
  const NamePattern: Re := KebabPattern(LowerAlnumDotDash)

  /** `MARKETPLACE_NAME_PATTERN`: lower-case letters, digits and hyphens. */
  const MarketplaceNamePattern: Re := KebabPattern(LowerAlnumDash)

  /** Not empty, a letter or digit at both ends, members of `middle` in
      between. */
  predicate IsKebab(s: string, middle: CharClass) {
    |s| > 0 && InClass(LowerAlnum, s[0]) && InClass(LowerAlnum, s[|s| - 1]) &&
    forall k | 0 < k < |s| - 1 :: InClass(middle, s[k])
  }

  /** The anchored pattern accepts exactly the kebab-case names. */
  lemma KebabPatternExact(middle: CharClass, s: string)
    ensures FullMatch(KebabPattern(middle), s) <==> IsKebab(s, middle)
  {
    var tail := Cat(Star(Class(middle)), Class(LowerAlnum));
    if |s| >= 2 {
      StarClassMatches(middle, s, 1, |s| - 1);
    }
    if FullMatch(KebabPattern(middle), s) {
      assert Matches(KebabPattern(middle), s, 0, |s|);
      var k: nat :| k <= |s| && Matches(Class(LowerAlnum), s, 0, k) && Matches(Opt(tail), s, k, |s|);
      assert k == 1;
      if k < |s| {
        assert Matches(Alt(tail, Empty), s, 1, |s|);
        assert Matches(tail, s, 1, |s|);
        var k2: nat :| 1 <= k2 <= |s| && Matches(Star(Class(middle)), s, 1, k2) && Matches(Class(LowerAlnum), s, k2, |s|);
        assert k2 == |s| - 1;
      }
    }
    if IsKebab(s, middle) {
      assert Matches(Class(LowerAlnum), s, 0, 1);
      if |s| >= 2 {
        assert Matches(Class(LowerAlnum), s, |s| - 1, |s|);
        assert Matches(tail, s, 1, |s|);
      }
      assert Matches(Opt(tail), s, 1, |s|);
    }
  }

  /** Every marketplace name is also a valid plugin name. */
  lemma MarketplaceNameIsPluginName(s: string)
    requires FullMatch(MarketplaceNamePattern, s)
    ensures FullMatch(NamePattern, s)
  {
    KebabPatternExact(LowerAlnumDash, s);
    KebabPatternExact(LowerAlnumDotDash, s);
  }

  /** The name patterns on a few typical names. */
  lemma NamePatternExamples()
    ensures FullMatch(NamePattern, "redis-development") && FullMatch(MarketplaceNamePattern, "redis-development")
    ensures FullMatch(NamePattern, "a") && FullMatch(NamePattern, "v1.2")
    ensures !FullMatch(MarketplaceNamePattern, "v1.2")
    ensures !FullMatch(NamePattern, "") && !FullMatch(NamePattern, "-a") && !FullMatch(NamePattern, "a.")
    ensures !FullMatch(NamePattern, "Redis")
  {
    KebabPatternExact(LowerAlnumDotDash, "redis-development");
    KebabPatternExact(LowerAlnumDash, "redis-development");
    KebabPatternExact(LowerAlnumDotDash, "a");
    KebabPatternExact(LowerAlnumDotDash, "v1.2");
    KebabPatternExact(LowerAlnumDash, "v1.2");
    KebabPatternExact(LowerAlnumDotDash, "");
    KebabPatternExact(LowerAlnumDotDash, "-a");
    KebabPatternExact(LowerAlnumDotDash, "a.");
    KebabPatternExact(LowerAlnumDotDash, "Redis");
    assert "v1.2"[2] == '.';
  }

  /** `PATTERN.test(value)` for a name read from a manifest. Only string
      names are modelled; any other value fails. */
  predicate NameMatches(pattern: Re, v: Option<Json>) {
    match v
    case Some(JString(s)) => FullMatch(pattern, s)
    case _ => false
  }

  // ----------------------------------------------------------- duplicates

  /** Values a `Set` finds again: a parsed array or object is a fresh
      value, equal to no other, while `undefined`, `null`, booleans,
      numbers and strings compare by value. */
  predicate Comparable(v: Option<Json>) {
    v.None? || !(v.value.JArray? || v.value.JObject?)
  }

  /** The names the duplicate scan reports, in order: every occurrence of
      a comparable name that occurred before. */
  function Duplicates(names: seq<Option<Json>>): seq<Option<Json>>
    decreases |names|
  {
    if |names| == 0 then []
    else
      var prefix := names[..|names| - 1];
      var last := names[|names| - 1];
      Duplicates(prefix) + (if Comparable(last) && last in prefix then [last] else [])
  }

  /** The duplicate-name loop: one pass, remembering the names seen in a
      set. */
  method FindDuplicates(names: seq<Option<Json>>) returns (dups: seq<Option<Json>>)
    ensures dups == Duplicates(names)
  {
    var seen: set<Option<Json>> := {};
    dups := [];
    var i := 0;
    while i < |names|
      invariant 0 <= i <= |names|
      invariant forall v :: v in seen <==> Comparable(v) && v in names[..i]
      invariant dups == Duplicates(names[..i])
    {
      var name := names[i];
      assert names[..i + 1][..i] == names[..i];
      if name in seen {
        dups := dups + [name];
      }
      if Comparable(name) {
        seen := seen + {name};
      }
      assert names[..i + 1] == names[..i] + [name];
      i := i + 1;
    }
    assert names[..|names|] == names;
  }

  /** A comparable name occurring `k > 0` times is reported `k - 1` times;
      any other name never. */
  lemma {:induction false} DuplicateCount(names: seq<Option<Json>>, v: Option<Json>)
    ensures Count(Duplicates(names), v) ==
      if Comparable(v) && Count(names, v) > 0 then Count(names, v) - 1 else 0
    decreases |names|
  {
    if |names| > 0 {
      var prefix := names[..|names| - 1];
      var last := names[|names| - 1];
      DuplicateCount(prefix, v);
      var added := if Comparable(last) && last in prefix then [last] else [];
      CountAppend(Duplicates(prefix), added, v);
      CountMember(prefix, last);
      if added != [] {
        assert Count(added, v) == (if last == v then 1 else 0) by {
          assert added[..0] == [];
        }
      }
    }
  }

  // ------------------------------------------------------------ the file

  /** What reading a JSON file yields: the file may be missing, may not
      parse, or parses to a value. */
  datatype JsonFile = NotFound | Unparsable | Parsed(value: Json)

  /** Everything either script reports. */
  datatype Issue =
    | ManifestNotFound
    | ManifestUnparsable
    | MissingMarketplaceName
    | MarketplaceNameNotKebab(name: Json)
    | MissingOwnerName
    | PluginsNotNonEmptyArray
    | DuplicatePluginName(duplicate: Option<Json>)
    | MissingPluginName
    | PluginNameNotKebab(plugin: Json)
    | InvalidSource(plugin: Json)
    | UnsafeSource(plugin: Json, path: string)
    | SourceNotFound(plugin: Json, path: string)
    | MissingPluginJson(plugin: Json)
    | PluginJsonUnparsable(plugin: Json)
    | PluginJsonMissingName(plugin: Json)
    | UnsafeLogo(plugin: Json, logo: Json)
    | LogoNotFound(plugin: Json, logo: Json)
    | UnsafePath(plugin: Json, field: string, path: string)
    | MissingPath(plugin: Json, field: string, path: string)
    | SkillMissingFrontmatter(plugin: Json, skill: string)
    | SkillMissingName(plugin: Json, skill: string)
    | SkillMissingDescription(plugin: Json, skill: string)

  /** An issue about one plugin entry rather than the marketplace file. */
  predicate IsEntryIssue(x: Issue) {
    !(x.ManifestNotFound? || x.ManifestUnparsable? || x.MissingMarketplaceName? || x.MarketplaceNameNotKebab?
      || x.MissingOwnerName? || x.PluginsNotNonEmptyArray? || x.DuplicatePluginName?)
  }

  /** The marketplace name check: at most one issue, "missing" before
      "not kebab-case". */
  function MarketplaceNameIssues(name: Option<Json>): (issues: seq<Issue>)
    ensures |issues| <= 1
    ensures issues == [MissingMarketplaceName] <==> !Truthy(name)
    ensures issues != [] && issues[0].MarketplaceNameNotKebab? <==>
      Truthy(name) && !(name.value.JString? && IsKebab(name.value.s, LowerAlnumDash))
    ensures forall x | x in issues :: x.MissingMarketplaceName? || x.MarketplaceNameNotKebab?
  {
    KebabPatternExact(LowerAlnumDash, AsString(name).GetOr(""));
    if !Truthy(name) then [MissingMarketplaceName]
    else if !NameMatches(MarketplaceNamePattern, name) then [MarketplaceNameNotKebab(name.value)]
    else []
  }

  /** The plugin list, when it is a non-empty array. */
  function PluginList(m: Json): (r: Option<seq<Json>>)
    ensures r.Some? <==> (Field(Some(m), "plugins").Some? &&
      Field(Some(m), "plugins").value.JArray? && |Field(Some(m), "plugins").value.items| > 0)
  {
    match Field(Some(m), "plugins")
    case Some(JArray(items)) => if |items| > 0 then Some(items) else None
    case _ => None
  }

  /** The checks on the marketplace file's own fields, in order: its name,
      its owner's name, and its plugin list. */
  function HeaderIssues(m: Json): (issues: seq<Issue>)
    ensures |issues| <= 3
    ensures MissingOwnerName in issues <==> !Truthy(Field(Field(Some(m), "owner"), "name"))
    ensures PluginsNotNonEmptyArray in issues <==> PluginList(m).None?
    ensures MissingMarketplaceName in issues <==> !Truthy(Field(Some(m), "name"))
    ensures forall x | x in issues ::
      x.MissingMarketplaceName? || x.MarketplaceNameNotKebab? || x.MissingOwnerName? || x.PluginsNotNonEmptyArray?
    ensures var name := Field(Some(m), "name");
      (exists x | x in issues :: x.MarketplaceNameNotKebab?) <==>
        Truthy(name) && !(name.value.JString? && IsKebab(name.value.s, LowerAlnumDash))
    ensures var n := MarketplaceNameIssues(Field(Some(m), "name"));
      |n| <= |issues| && issues[..|n|] == n &&
      (MissingOwnerName in issues ==> issues[|n|] == MissingOwnerName) &&
      (PluginsNotNonEmptyArray in issues ==> issues[|issues| - 1] == PluginsNotNonEmptyArray)
  {
    var nameIssues := MarketplaceNameIssues(Field(Some(m), "name"));
    var ownerIssues := if Truthy(Field(Field(Some(m), "owner"), "name")) then [] else [MissingOwnerName];
    var listIssues := if PluginList(m).Some? then [] else [PluginsNotNonEmptyArray];
    HeaderParts(nameIssues, ownerIssues, listIssues);
    nameIssues + ownerIssues + listIssues
  }

  /** The header's three parts, one after another. */
  lemma HeaderParts(names: seq<Issue>, owner: seq<Issue>, list: seq<Issue>)
    requires |names| <= 1 && forall x | x in names :: x.MissingMarketplaceName? || x.MarketplaceNameNotKebab?
    requires owner == [] || owner == [MissingOwnerName]
    requires list == [] || list == [PluginsNotNonEmptyArray]
    ensures var all := names + owner + list;
      && (forall x | x in all ::
        x.MissingMarketplaceName? || x.MarketplaceNameNotKebab? || x.MissingOwnerName? || x.PluginsNotNonEmptyArray?)
      && (MissingMarketplaceName in all <==> MissingMarketplaceName in names)
      && (MissingOwnerName in all <==> owner != [])
      && (PluginsNotNonEmptyArray in all <==> list != [])
      && ((exists x | x in all :: x.MarketplaceNameNotKebab?) <==> names != [] && names[0].MarketplaceNameNotKebab?)
      && all[..|names|] == names
      && (MissingOwnerName in all ==> all[|names|] == MissingOwnerName)
      && (PluginsNotNonEmptyArray in all ==> all[|all| - 1] == PluginsNotNonEmptyArray)
  {
    var all := names + owner + list;
    assert forall x | x in all :: x in names || x in owner || x in list;
    assert all[..|names|] == names;
  }
}
