/** One run of a plugin-marketplace validation script
    (scripts/validate-claude-plugins.mjs and scripts/validate-cursor-plugins.mjs):
    the marketplace file's own checks, the duplicate-name scan, then the
    checks of every plugin entry in turn. The file system is a parameter:
    which directories and files exist, what each plugin.json parses to, and
    which skill directories a plugin has. */
module Plugins {
  import opened Wrappers
  import opened Text
  import opened Json
  import opened Manifest
  import opened Frontmatter

  /** The two scripts differ only for the Cursor marketplace: it resolves
      sources under an optional plugin root, and checks logos and skill
      files. */
  datatype Script = Claude | Cursor

  /** A directory under a plugin's `skills` directory, with the text of its
      SKILL.md when that file exists. */
  datatype SkillDir = SkillDir(name: string, skillFile: Option<string>)

  /** What the script learns from the file system. Paths are those the
      script computes: a plugin directory is its (resolved) source path,
      and a referenced path is looked up under its plugin directory. Each
      script reads its own manifest in the plugin directory,
      `.claude-plugin/plugin.json` or `.cursor-plugin/plugin.json`, so
      what that file parses to depends on the script. */
  datatype Env = Env(
    isDirectory: string -> bool,
    pluginJson: (Script, string) -> JsonFile,
    fileExists: (string, string) -> bool,
    skillDirs: string -> seq<SkillDir>,
    join: (string, string) -> string)

  /** The plugin.json fields that list paths, in the order checked. */
  const PathFields: seq<string> := ["skills", "commands", "agents", "hooks", "mcpServers", "lspServers"]

  /** The issues for the paths a plugin.json field lists: an unsafe path
      is reported as unsafe and never looked up; a safe path is reported
      when it does not exist. */
  function PathIssues(env: Env, plugin: Json, dir: string, field: string, paths: seq<string>): (issues: seq<Issue>)
    ensures |issues| <= |paths|
    ensures forall p :: UnsafePath(plugin, field, p) in issues <==> p in paths && !IsSafePath(p)
    ensures forall p :: MissingPath(plugin, field, p) in issues <==>
      p in paths && IsSafePath(p) && !env.fileExists(dir, p)
    ensures forall x | x in issues :: (x.UnsafePath? || x.MissingPath?) && x.plugin == plugin && x.field == field
    ensures |paths| == 1 && !IsSafePath(paths[0]) ==> issues == [UnsafePath(plugin, field, paths[0])]
    ensures |paths| == 1 && IsSafePath(paths[0]) && !env.fileExists(dir, paths[0]) ==>
      issues == [MissingPath(plugin, field, paths[0])]
    ensures |paths| == 1 && IsSafePath(paths[0]) && env.fileExists(dir, paths[0]) ==> issues == []
  {
    if |paths| == 0 then []
    else
      var p := paths[0];
      var rest := PathIssues(env, plugin, dir, field, paths[1..]);
      assert forall q :: q in paths <==> q == p || q in paths[1..];
      PathIssue(env, plugin, dir, field, p) + rest
  }

  /** The issue, if any, for one listed path. */
  function PathIssue(env: Env, plugin: Json, dir: string, field: string, p: string): seq<Issue> {
    if !IsSafePath(p) then [UnsafePath(plugin, field, p)]
    else if !env.fileExists(dir, p) then [MissingPath(plugin, field, p)]
    else []
  }

  /** Each path is checked on its own, in list order: the issues of a
      concatenation are the issues of its parts, in order. With the
      one-path case above, this fixes how often and where each issue is
      reported. */
  lemma {:induction false} PathIssuesAppend(env: Env, plugin: Json, dir: string, field: string, a: seq<string>, b: seq<string>)
    ensures PathIssues(env, plugin, dir, field, a + b)
      == PathIssues(env, plugin, dir, field, a) + PathIssues(env, plugin, dir, field, b)
    decreases |a|
  {
    if |a| > 0 {
      assert (a + b)[0] == a[0] && (a + b)[1..] == a[1..] + b;
      PathIssuesAppend(env, plugin, dir, field, a[1..], b);
      AppendAssoc(PathIssue(env, plugin, dir, field, a[0]), PathIssues(env, plugin, dir, field, a[1..]),
        PathIssues(env, plugin, dir, field, b));
    } else {
      assert a + b == b;
    }
  }

  /** Concatenation regroups freely; named so the step above does not
      search for it. */
  lemma AppendAssoc<T>(x: seq<T>, y: seq<T>, z: seq<T>)
    ensures x + (y + z) == (x + y) + z
  {
  }

  /** Existence is consulted only for safe paths: two file systems that
      agree on the safe paths give the same issues. */
  lemma {:induction false} OnlySafePathsLookedUp(env1: Env, env2: Env, plugin: Json, dir: string, field: string, paths: seq<string>)
    requires forall p | p in paths && IsSafePath(p) :: env1.fileExists(dir, p) == env2.fileExists(dir, p)
    ensures PathIssues(env1, plugin, dir, field, paths) == PathIssues(env2, plugin, dir, field, paths)
  {
    if |paths| > 0 {
      OnlySafePathsLookedUp(env1, env2, plugin, dir, field, paths[1..]);
    }
  }

  /** The issues for one path field: none when the plugin.json lacks it. */
  function FieldIssues(env: Env, plugin: Json, dir: string, pj: Json, f: string): (issues: seq<Issue>)
    ensures issues != [] ==> Has(pj, f)
    ensures forall x | x in issues :: (x.UnsafePath? || x.MissingPath?) && x.field == f
  {
    if Has(pj, f) then PathIssues(env, plugin, dir, f, ExtractPaths(Get(pj.members, f).value)) else []
  }

  /** The issues for every path field a plugin.json has: each present
      field's path issues, and nothing else. */
  function FieldPathIssues(env: Env, plugin: Json, dir: string, pj: Json, fields: seq<string>): (issues: seq<Issue>)
    ensures forall x | x in issues :: (x.UnsafePath? || x.MissingPath?) && x.field in fields && Has(pj, x.field)
    ensures forall x | x in issues :: IsEntryIssue(x)
    ensures forall f, x | f in fields && x in FieldIssues(env, plugin, dir, pj, f) :: x in issues
    ensures forall x | x in issues :: x in FieldIssues(env, plugin, dir, pj, x.field)
    ensures |fields| == 1 ==> issues == FieldIssues(env, plugin, dir, pj, fields[0])
  {
    if |fields| == 0 then []
    else
      var f := fields[0];
      var own := FieldIssues(env, plugin, dir, pj, f);
      var rest := FieldPathIssues(env, plugin, dir, pj, fields[1..]);
      assert forall g | g in fields :: g == f || g in fields[1..];
      own + rest
  }

  /** The fields are checked one by one in list order: the issues of a
      concatenation of field lists are those of its parts, in order. */
  lemma {:induction false} FieldPathIssuesAppend(env: Env, plugin: Json, dir: string, pj: Json, a: seq<string>, b: seq<string>)
    ensures FieldPathIssues(env, plugin, dir, pj, a + b)
      == FieldPathIssues(env, plugin, dir, pj, a) + FieldPathIssues(env, plugin, dir, pj, b)
    decreases |a|
  {
    if |a| > 0 {
      assert (a + b)[0] == a[0] && (a + b)[1..] == a[1..] + b;
      FieldPathIssuesAppend(env, plugin, dir, pj, a[1..], b);
      AppendAssoc(FieldIssues(env, plugin, dir, pj, a[0]), FieldPathIssues(env, plugin, dir, pj, a[1..]),
        FieldPathIssues(env, plugin, dir, pj, b));
    } else {
      assert a + b == b;
    }
  }

  /** The logo check (Cursor): a present logo must be a safe path to an
      existing file. */
  function LogoIssues(env: Env, plugin: Json, dir: string, logo: Option<Json>): (issues: seq<Issue>)
    ensures |issues| <= 1
    ensures issues == [] <==> !Truthy(logo) || (IsSafeRelativePath(logo) && env.fileExists(dir, logo.value.s))
    ensures issues != [] ==> issues[0] == (if IsSafeRelativePath(logo) then LogoNotFound(plugin, logo.value) else UnsafeLogo(plugin, logo.value))
    ensures forall x | x in issues :: IsEntryIssue(x) && (x.UnsafeLogo? || x.LogoNotFound?)
  {
    if !Truthy(logo) then []
    else if !IsSafeRelativePath(logo) then [UnsafeLogo(plugin, logo.value)]
    else if !env.fileExists(dir, logo.value.s) then [LogoNotFound(plugin, logo.value)]
    else []
  }

  /** The SKILL.md checks of one skill directory: none without a SKILL.md. */
  function SkillDirIssues(plugin: Json, d: SkillDir): (issues: seq<Issue>)
    ensures forall x | x in issues :: IsSkillIssueOf(plugin, d, x)
  {
    match d.skillFile
    case None => []
    case Some(content) => SkillIssues(plugin, d.name, ParseFrontmatter(content))
  }

  /** `x` is one of the SKILL.md issues of directory `d`, which has a SKILL.md. */
  predicate IsSkillIssueOf(plugin: Json, d: SkillDir, x: Issue) {
    d.skillFile.Some? &&
    (x == SkillMissingFrontmatter(plugin, d.name) || x == SkillMissingName(plugin, d.name) || x == SkillMissingDescription(plugin, d.name))
  }

  /** The SKILL.md checks of every skill directory (Cursor). A directory
      without SKILL.md only draws a warning. */
  function SkillFileIssues(plugin: Json, skills: seq<SkillDir>): (issues: seq<Issue>)
    ensures forall x | x in issues :: exists d | d in skills :: IsSkillIssueOf(plugin, d, x)
    ensures forall x | x in issues :: IsEntryIssue(x) && (x.SkillMissingFrontmatter? || x.SkillMissingName? || x.SkillMissingDescription?)
    ensures forall d, x | d in skills && x in SkillDirIssues(plugin, d) :: x in issues
    ensures forall x | x in issues :: exists d | d in skills :: x in SkillDirIssues(plugin, d)
    ensures |skills| == 1 ==> issues == SkillDirIssues(plugin, skills[0])
  {
    if |skills| == 0 then []
    else
      var own := SkillDirIssues(plugin, skills[0]);
      var rest := SkillFileIssues(plugin, skills[1..]);
      SkillFileStep(plugin, skills, own, rest);
      SkillIssuesOfSome(plugin, skills, own + rest);
      own + rest
  }

  /** One more skill directory in front of the others. */
  lemma SkillFileStep(plugin: Json, skills: seq<SkillDir>, own: seq<Issue>, rest: seq<Issue>)
    requires |skills| > 0
    requires own == SkillDirIssues(plugin, skills[0])
    requires forall x | x in rest :: exists d | d in skills[1..] :: x in SkillDirIssues(plugin, d)
    requires forall d, x | d in skills[1..] && x in SkillDirIssues(plugin, d) :: x in rest
    ensures forall d, x | d in skills && x in SkillDirIssues(plugin, d) :: x in own + rest
    ensures forall x | x in own + rest :: exists d | d in skills :: x in SkillDirIssues(plugin, d)
  {
    forall x | x in own + rest ensures exists d | d in skills :: x in SkillDirIssues(plugin, d) {
      if x in own {
        assert skills[0] in skills;
      } else {
        var d :| d in skills[1..] && x in SkillDirIssues(plugin, d);
        assert d in skills;
      }
    }
    assert forall e | e in skills :: e == skills[0] || e in skills[1..];
  }

  /** An issue of some directory's SKILL.md checks is a skill issue of
      that directory. */
  lemma SkillIssuesOfSome(plugin: Json, skills: seq<SkillDir>, issues: seq<Issue>)
    requires forall x | x in issues :: exists d | d in skills :: x in SkillDirIssues(plugin, d)
    ensures forall x | x in issues :: exists d | d in skills :: IsSkillIssueOf(plugin, d, x)
    ensures forall x | x in issues :: IsEntryIssue(x) && (x.SkillMissingFrontmatter? || x.SkillMissingName? || x.SkillMissingDescription?)
  {
    forall x | x in issues
      ensures (exists d | d in skills :: IsSkillIssueOf(plugin, d, x))
        && (x.SkillMissingFrontmatter? || x.SkillMissingName? || x.SkillMissingDescription?)
    {
      var d :| d in skills && x in SkillDirIssues(plugin, d);
      assert IsSkillIssueOf(plugin, d, x);
    }
  }

  /** The skill directories are checked one by one in listing order: the
      issues of a concatenation are those of its parts, in order. */
  lemma {:induction false} SkillFileIssuesAppend(plugin: Json, a: seq<SkillDir>, b: seq<SkillDir>)
    ensures SkillFileIssues(plugin, a + b) == SkillFileIssues(plugin, a) + SkillFileIssues(plugin, b)
    decreases |a|
  {
    if |a| > 0 {
      assert (a + b)[0] == a[0] && (a + b)[1..] == a[1..] + b;
      SkillFileIssuesAppend(plugin, a[1..], b);
      AppendAssoc(SkillDirIssues(plugin, a[0]), SkillFileIssues(plugin, a[1..]), SkillFileIssues(plugin, b));
    } else {
      assert a + b == b;
    }
  }

  /** An issue the plugin.json checks can report. */
  predicate IsPluginJsonIssue(x: Issue) {
    || x.MissingPluginJson? || x.PluginJsonUnparsable? || x.PluginJsonMissingName?
    || x.UnsafeLogo? || x.LogoNotFound? || x.UnsafePath? || x.MissingPath?
    || x.SkillMissingFrontmatter? || x.SkillMissingName? || x.SkillMissingDescription?
  }

  /** The checks of a plugin.json once it is found. A missing file, one
      that does not parse, or one that parses to a falsy value ends the
      entry's checks; otherwise its name, logo (Cursor), path fields and
      skill files (Cursor) are all checked. */
  function PluginJsonIssues(script: Script, env: Env, plugin: Json, dir: string): (issues: seq<Issue>)
    ensures forall x | x in issues :: IsPluginJsonIssue(x)
    ensures forall x | x in issues :: IsEntryIssue(x) && !x.MissingPluginName? && !x.PluginNameNotKebab?
    ensures MissingPluginJson(plugin) in issues <==> env.pluginJson(script, dir).NotFound?
    ensures env.pluginJson(script, dir).NotFound? ==> issues == [MissingPluginJson(plugin)]
    ensures PluginJsonUnparsable(plugin) in issues <==> env.pluginJson(script, dir).Unparsable?
    ensures env.pluginJson(script, dir).Unparsable? ==> issues == [PluginJsonUnparsable(plugin)]
    ensures env.pluginJson(script, dir).Parsed? && !Truthy(Some(env.pluginJson(script, dir).value)) ==> issues == []
    ensures env.pluginJson(script, dir).Parsed? && Truthy(Some(env.pluginJson(script, dir).value)) ==>
      var pj := env.pluginJson(script, dir).value;
      && (PluginJsonMissingName(plugin) in issues <==> !Truthy(Field(Some(pj), "name")))
      && (forall x | x in FieldPathIssues(env, plugin, dir, pj, PathFields) :: x in issues)
      && (script.Cursor? ==> forall x | x in LogoIssues(env, plugin, dir, Field(Some(pj), "logo")) :: x in issues)
      && (script.Cursor? ==> forall x | x in SkillFileIssues(plugin, env.skillDirs(dir)) :: x in issues)
    ensures env.pluginJson(script, dir).Parsed? && Truthy(Some(env.pluginJson(script, dir).value)) ==>
      var pj := env.pluginJson(script, dir).value;
      issues == (if Truthy(Field(Some(pj), "name")) then [] else [PluginJsonMissingName(plugin)])
        + (if script.Cursor? then LogoIssues(env, plugin, dir, Field(Some(pj), "logo")) else [])
        + FieldPathIssues(env, plugin, dir, pj, PathFields)
        + (if script.Cursor? then SkillFileIssues(plugin, env.skillDirs(dir)) else [])
    ensures script.Claude? ==> forall x | x in issues :: !IsCursorOnly(x)
  {
    match env.pluginJson(script, dir)
    case NotFound => [MissingPluginJson(plugin)]
    case Unparsable => [PluginJsonUnparsable(plugin)]
    case Parsed(pj) =>
      if !Truthy(Some(pj)) then []
      else
        var nameIssues := if Truthy(Field(Some(pj), "name")) then [] else [PluginJsonMissingName(plugin)];
        var logoIssues := if script.Cursor? then LogoIssues(env, plugin, dir, Field(Some(pj), "logo")) else [];
        var pathIssues := FieldPathIssues(env, plugin, dir, pj, PathFields);
        var skillIssues := if script.Cursor? then SkillFileIssues(plugin, env.skillDirs(dir)) else [];
        PluginJsonParts(script, plugin, nameIssues, logoIssues, pathIssues, skillIssues);
        nameIssues + logoIssues + pathIssues + skillIssues
  }

  /** The four parts of a parsed plugin.json's checks: each part is
      reported, only the name part can report the missing name, and no
      part reports anything about the entry's own name or source. */
  lemma PluginJsonParts(script: Script, plugin: Json, names: seq<Issue>, logos: seq<Issue>, paths: seq<Issue>, skills: seq<Issue>)
    requires names == [] || names == [PluginJsonMissingName(plugin)]
    requires script.Claude? ==> logos == [] && skills == []
    requires forall x | x in logos :: x.UnsafeLogo? || x.LogoNotFound?
    requires forall x | x in paths :: x.UnsafePath? || x.MissingPath?
    requires forall x | x in skills :: x.SkillMissingFrontmatter? || x.SkillMissingName? || x.SkillMissingDescription?
    ensures var all := names + logos + paths + skills;
      && (forall x | x in all :: IsPluginJsonIssue(x) && !x.MissingPluginJson? && !x.PluginJsonUnparsable?)
      && (forall x | x in all :: IsEntryIssue(x) && !x.MissingPluginName? && !x.PluginNameNotKebab?)
      && (PluginJsonMissingName(plugin) in all <==> names != [])
      && (forall x | x in logos :: x in all)
      && (forall x | x in paths :: x in all)
      && (forall x | x in skills :: x in all)
      && (script.Claude? ==> forall x | x in all :: !IsCursorOnly(x))
  {
    var all := names + logos + paths + skills;
    assert forall x | x in all :: x in names || x in logos || x in paths || x in skills;
  }

  /** Where the plugin directory is: the Cursor script puts a non-empty
      plugin root in front of the source. */
  function ResolvedSource(script: Script, env: Env, pluginRoot: string, source: string): string {
    if script.Cursor? && |pluginRoot| > 0 then env.join(pluginRoot, source) else source
  }

  /** The checks of one entry whose name is present, from its source on:
      an invalid source, an unsafe path or a missing directory is the one
      issue and ends the entry's checks; otherwise the plugin.json checks
      run in the resolved directory. */
  function SourceIssues(script: Script, env: Env, pluginRoot: string, plugin: Json, source: Option<Json>): (issues: seq<Issue>)
    ensures forall x | x in issues :: IsEntryIssue(x) && !x.MissingPluginName? && !x.PluginNameNotKebab?
    ensures InvalidSource(plugin) in issues <==> !Truthy(source) || !source.value.JString?
    ensures !Truthy(source) || !source.value.JString? ==> issues == [InvalidSource(plugin)]
    ensures Truthy(source) && source.value.JString? ==>
      var path := ResolvedSource(script, env, pluginRoot, source.value.s);
      && (UnsafeSource(plugin, path) in issues <==> !IsSafePath(path))
      && (!IsSafePath(path) ==> issues == [UnsafeSource(plugin, path)])
      && (SourceNotFound(plugin, path) in issues <==> IsSafePath(path) && !env.isDirectory(path))
      && (IsSafePath(path) && !env.isDirectory(path) ==> issues == [SourceNotFound(plugin, path)])
      && (IsSafePath(path) && env.isDirectory(path) ==> issues == PluginJsonIssues(script, env, plugin, path))
  {
    if !Truthy(source) || !source.value.JString? then [InvalidSource(plugin)]
    else
      var path := ResolvedSource(script, env, pluginRoot, source.value.s);
      if !IsSafePath(path) then [UnsafeSource(plugin, path)]
      else if !env.isDirectory(path) then [SourceNotFound(plugin, path)]
      else
        var later := PluginJsonIssues(script, env, plugin, path);
        NoSourceIssue(later);
        later
  }

  /** The plugin.json checks report nothing about the source. */
  lemma NoSourceIssue(issues: seq<Issue>)
    requires forall x | x in issues :: IsPluginJsonIssue(x)
    ensures forall x | x in issues :: !x.InvalidSource? && !x.UnsafeSource? && !x.SourceNotFound?
  {
  }

  /** The checks of one plugin entry. */
  function EntryIssues(script: Script, env: Env, pluginRoot: string, entry: Json): (issues: seq<Issue>)
    ensures MissingPluginName in issues <==> !Truthy(Field(Some(entry), "name"))
    ensures !Truthy(Field(Some(entry), "name")) ==> issues == [MissingPluginName]
    ensures forall x | x in issues :: IsEntryIssue(x)
    ensures Truthy(Field(Some(entry), "name")) ==>
      (PluginNameNotKebab(Field(Some(entry), "name").value) in issues <==>
        !NameMatches(NamePattern, Field(Some(entry), "name")))
    ensures Truthy(Field(Some(entry), "name")) ==>
      var name := Field(Some(entry), "name");
      issues == (if NameMatches(NamePattern, name) then [] else [PluginNameNotKebab(name.value)])
        + SourceIssues(script, env, pluginRoot, name.value, Field(Some(entry), "source"))
  {
    var name := Field(Some(entry), "name");
    if !Truthy(name) then [MissingPluginName]
    else
      var plugin := name.value;
      var nameIssues := if NameMatches(NamePattern, name) then [] else [PluginNameNotKebab(plugin)];
      var later := SourceIssues(script, env, pluginRoot, plugin, Field(Some(entry), "source"));
      nameIssues + later
  }

  /** An entry whose source resolves to an unsafe path gets that one
      source issue, after at most its name issue, and no further checks. */
  lemma UnsafeSourceStops(script: Script, env: Env, pluginRoot: string, entry: Json, name: Json, source: string)
    requires Field(Some(entry), "name") == Some(name) && Truthy(Some(name))
    requires Field(Some(entry), "source") == Some(JString(source)) && |source| > 0
    requires !IsSafePath(ResolvedSource(script, env, pluginRoot, source))
    ensures var issues := EntryIssues(script, env, pluginRoot, entry);
      && 1 <= |issues| <= 2
      && issues[|issues| - 1] == UnsafeSource(name, ResolvedSource(script, env, pluginRoot, source))
  {
  }

  /** The issues only the Cursor script looks for. */
  predicate IsCursorOnly(x: Issue) {
    x.UnsafeLogo? || x.LogoNotFound? || x.SkillMissingFrontmatter? || x.SkillMissingName? || x.SkillMissingDescription?
  }

  /** When a plugin directory's two manifests parse alike, the Cursor
      plugin.json checks include the Claude ones, and add only logo and
      skill-file issues. */
  lemma PluginJsonCursorMore(env: Env, plugin: Json, dir: string)
    requires env.pluginJson(Cursor, dir) == env.pluginJson(Claude, dir)
    ensures forall x | x in PluginJsonIssues(Claude, env, plugin, dir) :: x in PluginJsonIssues(Cursor, env, plugin, dir)
    ensures forall x | x in PluginJsonIssues(Cursor, env, plugin, dir) && x !in PluginJsonIssues(Claude, env, plugin, dir) ::
      IsCursorOnly(x)
  {
    var file := env.pluginJson(Cursor, dir);
    if file.Parsed? && Truthy(Some(file.value)) {
      var pj := file.value;
      var nameIssues := if Truthy(Field(Some(pj), "name")) then [] else [PluginJsonMissingName(plugin)];
      var logoIssues := LogoIssues(env, plugin, dir, Field(Some(pj), "logo"));
      var pathIssues := FieldPathIssues(env, plugin, dir, pj, PathFields);
      var skillIssues := SkillFileIssues(plugin, env.skillDirs(dir));
      assert PluginJsonIssues(Claude, env, plugin, dir) == nameIssues + [] + pathIssues + [];
      assert PluginJsonIssues(Cursor, env, plugin, dir) == nameIssues + logoIssues + pathIssues + skillIssues;
    }
  }

  /** With no plugin root, and when the plugin directory's two manifests
      parse alike, the Cursor script reports everything the Claude script
      reports for an entry, and possibly more: logo and skill-file
      issues. */
  lemma CursorChecksMore(env: Env, entry: Json)
    requires var source := Field(Some(entry), "source");
      source.Some? && source.value.JString? ==>
        env.pluginJson(Cursor, source.value.s) == env.pluginJson(Claude, source.value.s)
    ensures forall x | x in EntryIssues(Claude, env, "", entry) :: x in EntryIssues(Cursor, env, "", entry)
    ensures forall x | x in EntryIssues(Cursor, env, "", entry) && x !in EntryIssues(Claude, env, "", entry) ::
      IsCursorOnly(x)
  {
    var name := Field(Some(entry), "name");
    var source := Field(Some(entry), "source");
    if Truthy(name) && Truthy(source) && source.value.JString? {
      var path := source.value.s;
      assert ResolvedSource(Cursor, env, "", path) == path == ResolvedSource(Claude, env, "", path);
      if IsSafePath(path) && env.isDirectory(path) {
        PluginJsonCursorMore(env, name.value, path);
      }
    }
  }

  /** The two manifests are separate files: a directory that holds only a
      `.claude-plugin/plugin.json` with no name draws the missing-name
      issue from the Claude checks, and the missing-manifest issue, not
      the missing name, from the Cursor checks. */
  lemma ManifestsAreSeparate(env: Env, plugin: Json, dir: string)
    requires env.pluginJson(Claude, dir) == Parsed(JObject([]))
    requires env.pluginJson(Cursor, dir) == NotFound
    ensures PluginJsonMissingName(plugin) in PluginJsonIssues(Claude, env, plugin, dir)
    ensures PluginJsonMissingName(plugin) !in PluginJsonIssues(Cursor, env, plugin, dir)
  {
  }

  // ------------------------------------------------------------- the run

  /** The name of every entry, as the duplicate scan reads it. */
  function Names(entries: seq<Json>): (names: seq<Option<Json>>)
    ensures |names| == |entries|
    ensures forall i | 0 <= i < |entries| :: names[i] == Field(Some(entries[i]), "name")
  {
    seq(|entries|, i requires 0 <= i < |entries| => Field(Some(entries[i]), "name"))
  }

  /** One issue per duplicate the scan finds, in scan order. */
  function DuplicateIssues(entries: seq<Json>): (issues: seq<Issue>)
    ensures forall v :: (Count(issues, DuplicatePluginName(v)) ==
      if Comparable(v) && Count(Names(entries), v) > 0 then Count(Names(entries), v) - 1 else 0)
    ensures forall x | x in issues :: x.DuplicatePluginName?
  {
    var dups := Duplicates(Names(entries));
    var issues := seq(|dups|, i requires 0 <= i < |dups| => DuplicatePluginName(dups[i]));
    forall v ensures Count(issues, DuplicatePluginName(v)) == Count(dups, v) {
      CountRenamed(dups, v);
    }
    forall v ensures Count(dups, v) ==
      if Comparable(v) && Count(Names(entries), v) > 0 then Count(Names(entries), v) - 1 else 0
    {
      DuplicateCount(Names(entries), v);
    }
    issues
  }

  lemma {:induction false} CountRenamed(dups: seq<Option<Json>>, v: Option<Json>)
    ensures Count(seq(|dups|, i requires 0 <= i < |dups| => DuplicatePluginName(dups[i])), DuplicatePluginName(v)) == Count(dups, v)
    decreases |dups|
  {
    if |dups| > 0 {
      var prefix := dups[..|dups| - 1];
      CountRenamed(prefix, v);
      var all := seq(|dups|, i requires 0 <= i < |dups| => DuplicatePluginName(dups[i]));
      assert all[..|all| - 1] == seq(|prefix|, i requires 0 <= i < |prefix| => DuplicatePluginName(prefix[i]));
    }
  }

  /** The checks of every entry, in order. */
  function AllEntryIssues(script: Script, env: Env, pluginRoot: string, entries: seq<Json>): (issues: seq<Issue>)
    ensures forall x | x in issues :: IsEntryIssue(x)
    ensures forall x | x in issues :: exists e | e in entries :: x in EntryIssues(script, env, pluginRoot, e)
    ensures |entries| == 1 ==> issues == EntryIssues(script, env, pluginRoot, entries[0])
  {
    if |entries| == 0 then []
    else EntryIssues(script, env, pluginRoot, entries[0]) + AllEntryIssues(script, env, pluginRoot, entries[1..])
  }

  /** The entries are checked one by one in order: the issues of a
      concatenation of entry lists are those of its parts, in order. */
  lemma {:induction false} AllEntryIssuesAppend(script: Script, env: Env, pluginRoot: string, a: seq<Json>, b: seq<Json>)
    ensures AllEntryIssues(script, env, pluginRoot, a + b)
      == AllEntryIssues(script, env, pluginRoot, a) + AllEntryIssues(script, env, pluginRoot, b)
    decreases |a|
  {
    if |a| > 0 {
      assert (a + b)[0] == a[0] && (a + b)[1..] == a[1..] + b;
      AllEntryIssuesAppend(script, env, pluginRoot, a[1..], b);
      AppendAssoc(EntryIssues(script, env, pluginRoot, a[0]), AllEntryIssues(script, env, pluginRoot, a[1..]),
        AllEntryIssues(script, env, pluginRoot, b));
    } else {
      assert a + b == b;
    }
  }

  /** Each entry's issues are reported, whatever the other entries hold. */
  lemma {:induction false} EntryIssuesIncluded(script: Script, env: Env, pluginRoot: string, entries: seq<Json>, i: nat)
    requires i < |entries|
    ensures forall x | x in EntryIssues(script, env, pluginRoot, entries[i]) :: x in AllEntryIssues(script, env, pluginRoot, entries)
  {
    if i > 0 {
      assert entries[1..][i - 1] == entries[i];
      EntryIssuesIncluded(script, env, pluginRoot, entries[1..], i - 1);
    }
  }

  /** The Cursor script's plugin root: `metadata.pluginRoot` when it is a
      string, otherwise none. The Claude script has no plugin root. */
  function PluginRoot(script: Script, m: Json): string {
    if script.Claude? then "" else AsString(Field(Field(Some(m), "metadata"), "pluginRoot")).GetOr("")
  }

  /** Everything one run reports. A missing or unparsable marketplace file
      is the only issue; a file that parses to a falsy value ends the run
      with nothing reported; an unusable plugin list ends it after the
      file's own checks. */
  function Run(script: Script, env: Env, file: JsonFile): (issues: seq<Issue>)
    ensures file.NotFound? ==> issues == [ManifestNotFound]
    ensures file.Unparsable? ==> issues == [ManifestUnparsable]
  {
    match file
    case NotFound => [ManifestNotFound]
    case Unparsable => [ManifestUnparsable]
    case Parsed(m) =>
      if !Truthy(Some(m)) then []
      else
        match PluginList(m)
        case None => HeaderIssues(m)
        case Some(entries) =>
          HeaderIssues(m) + DuplicateIssues(entries) + AllEntryIssues(script, env, PluginRoot(script, m), entries)
  }

  /** A marketplace file holding `null`, `false`, `0` or `""` passes. */
  lemma FalsyManifestPasses(script: Script, env: Env, m: Json)
    requires !Truthy(Some(m))
    ensures Run(script, env, Parsed(m)) == []
  {
  }

  /** Without a usable plugin list, only the file's own checks run, and
      they report the list. */
  lemma UnusablePluginListStops(script: Script, env: Env, m: Json)
    requires Truthy(Some(m)) && PluginList(m).None?
    ensures Run(script, env, Parsed(m)) == HeaderIssues(m)
    ensures PluginsNotNonEmptyArray in Run(script, env, Parsed(m))
  {
  }

  /** A run over a usable plugin list: the file's own checks, the
      duplicates, then every entry's checks. */
  lemma RunParts(script: Script, env: Env, m: Json)
    requires Truthy(Some(m)) && PluginList(m).Some?
    ensures var entries := PluginList(m).value;
      Run(script, env, Parsed(m)) ==
        HeaderIssues(m) + DuplicateIssues(entries) + AllEntryIssues(script, env, PluginRoot(script, m), entries)
  {
  }

  /** In a run over a usable plugin list, a comparable name given to `k`
      entries is reported as a duplicate `k - 1` times. */
  lemma RunReportsDuplicates(script: Script, env: Env, m: Json, v: Option<Json>)
    requires Truthy(Some(m)) && PluginList(m).Some?
    ensures var entries := PluginList(m).value;
      Count(Run(script, env, Parsed(m)), DuplicatePluginName(v)) ==
        (if Comparable(v) && Count(Names(entries), v) > 0 then Count(Names(entries), v) - 1 else 0)
  {
    var entries := PluginList(m).value;
    var header := HeaderIssues(m);
    var dups := DuplicateIssues(entries);
    var rest := AllEntryIssues(script, env, PluginRoot(script, m), entries);
    RunParts(script, env, m);
    NoDuplicateIssues(header, v);
    NoDuplicateIssues(rest, v);
    CountMiddle(header, dups, rest, DuplicatePluginName(v));
  }

  /** In a run over a usable plugin list, every entry's own issues are
      reported. */
  lemma RunReportsEntry(script: Script, env: Env, m: Json, i: nat)
    requires Truthy(Some(m)) && PluginList(m).Some? && i < |PluginList(m).value|
    ensures var entries := PluginList(m).value;
      forall x | x in EntryIssues(script, env, PluginRoot(script, m), entries[i]) :: x in Run(script, env, Parsed(m))
  {
    RunParts(script, env, m);
    EntryIssuesIncluded(script, env, PluginRoot(script, m), PluginList(m).value, i);
  }

  lemma NoDuplicateIssues(issues: seq<Issue>, v: Option<Json>)
    requires forall x | x in issues :: !x.DuplicatePluginName?
    ensures Count(issues, DuplicatePluginName(v)) == 0
  {
    CountMember(issues, DuplicatePluginName(v));
  }
}
