/** The YAML-like front matter of a skill's SKILL.md file, as the Cursor
    script reads it (`parseFrontmatter` and the field checks of
    `validateSkillFiles` in scripts/validate-cursor-plugins.mjs): a block
    between an opening `---` line and the next `\n---`, one `key: value`
    field per line. */
module Frontmatter {
  import opened Wrappers
  import opened Text
  import opened Json
  import opened Manifest

  /** `content.replace(/\r\n/g, "\n")`: one left-to-right pass that turns
      each CRLF pair into a line feed. */
  function NormalizeNewlines(s: string): (r: string)
    ensures |r| <= |s|
    decreases |s|
  {
    if |s| == 0 then ""
    else if |s| >= 2 && s[0] == '\r' && s[1] == '\n' then "\n" + NormalizeNewlines(s[2..])
    else [s[0]] + NormalizeNewlines(s[1..])
  }

  /** Text without carriage returns is left as it is. */
  lemma {:induction false} NoCarriageReturnUnchanged(s: string)
    requires '\r' !in s
    ensures NormalizeNewlines(s) == s
    decreases |s|
  {
    if |s| > 0 {
      assert '\r' !in s[1..];
      NoCarriageReturnUnchanged(s[1..]);
    }
  }

  /** Normalising distributes over a concatenation whose first part does
      not end in a carriage return (which could pair with the second). */
  lemma {:induction false} NormalizeAppend(a: string, b: string)
    requires |a| == 0 || a[|a| - 1] != '\r'
    ensures NormalizeNewlines(a + b) == NormalizeNewlines(a) + NormalizeNewlines(b)
    decreases |a|
  {
    if |a| == 0 {
      assert a + b == b;
    } else if |a| >= 2 && a[0] == '\r' && a[1] == '\n' {
      NormalizeAppendCrLf(a, b);
    } else {
      NormalizeAppendOther(a, b);
    }
  }

  lemma {:induction false} NormalizeAppendCrLf(a: string, b: string)
    requires |a| >= 2 && a[0] == '\r' && a[1] == '\n' && a[|a| - 1] != '\r'
    ensures NormalizeNewlines(a + b) == NormalizeNewlines(a) + NormalizeNewlines(b)
    decreases |a|, 0
  {
    var ab := a + b;
    assert ab[0] == '\r' && ab[1] == '\n';
    assert ab[2..] == a[2..] + b;
    NormalizeAppend(a[2..], b);
  }

  lemma {:induction false} NormalizeAppendOther(a: string, b: string)
    requires |a| > 0 && a[|a| - 1] != '\r'
    requires !(|a| >= 2 && a[0] == '\r' && a[1] == '\n')
    ensures NormalizeNewlines(a + b) == NormalizeNewlines(a) + NormalizeNewlines(b)
    decreases |a|, 0
  {
    var ab := a + b;
    assert ab[0] == a[0];
    assert !(|ab| >= 2 && ab[0] == '\r' && ab[1] == '\n') by {
      if |a| == 1 {
        assert a[0] != '\r';
      } else {
        assert ab[1] == a[1];
      }
    }
    assert ab[1..] == a[1..] + b;
    NormalizeAppend(a[1..], b);
  }

  /** A CRLF between two pieces becomes a line feed. */
  lemma CrLfBecomesLineFeed(a: string, b: string)
    requires '\r' !in a && '\r' !in b
    ensures NormalizeNewlines(a + "\r\n" + b) == a + "\n" + b
  {
    NoCarriageReturnUnchanged(a);
    NoCarriageReturnUnchanged(b);
    assert NormalizeNewlines("\r\n" + b) == "\n" + NormalizeNewlines(b) by {
      assert ("\r\n" + b)[2..] == b;
    }
    NormalizeAppend(a, "\r\n" + b);
    assert a + "\r\n" + b == a + ("\r\n" + b);
  }

  /** The first index at or after `from` where `t` occurs in `s`. */
  function FindFrom(s: string, t: string, from: nat): (r: Option<nat>)
    ensures r.Some? ==> from <= r.value && OccursAt(s, t, r.value)
    ensures r.Some? ==> forall k | from <= k < r.value :: !OccursAt(s, t, k)
    ensures r.None? ==> forall k | from <= k <= |s| :: !OccursAt(s, t, k)
    decreases |s| + 1 - from
  {
    if from > |s| then None
    else if OccursAt(s, t, from) then Some(from)
    else FindFrom(s, t, from + 1)
  }

  const Opening: string := "---\n"

  const Closing: string := "\n---"

  /** The group of `/^---\n([\s\S]*?)\n---/` on normalised text: what lies
      between the opening line and the first closing `\n---` after it. */
  function Block(text: string): (r: Option<string>)
    ensures r.Some? <==> (StartsWith(text, Opening) &&
      exists k | |Opening| <= k <= |text| :: OccursAt(text, Closing, k))
    ensures r.Some? ==> StartsWith(text, Opening + r.value + Closing)
    ensures r.Some? ==> forall k | |Opening| <= k < |Opening| + |r.value| :: !OccursAt(text, Closing, k)
  {
    if !StartsWith(text, Opening) then None
    else match FindFrom(text, Closing, |Opening|)
      case None => None
      case Some(k) =>
        var b := text[|Opening|..k];
        assert text[..|Opening + b + Closing|] == Opening + b + Closing by {
          assert text[..|Opening|] == Opening;
          assert text[k..k + |Closing|] == Closing;
          assert text[..k + |Closing|] == text[..|Opening|] + b + text[k..k + |Closing|];
        }
        Some(b)
  }

  /** One block line as a field: the line must hold a colon, and its first
      colon must not be its first character. The key is the trimmed text
      before that colon, the value the trimmed rest, colons included. */
  function LineField(line: string): (r: Option<(string, string)>)
    ensures r.Some? <==> ':' in line && line[0] != ':'
  {
    match IndexOf(line, ':')
    case None => None
    case Some(idx) => if idx > 0 then Some((Trim(line[..idx]), Trim(line[idx + 1..]))) else None
  }

  /** A line written as `key:value`, with a colon-free, non-empty key,
      reads back as its trimmed key and value. */
  lemma LineFieldOf(key: string, value: string)
    requires |key| > 0 && ':' !in key
    ensures LineField(key + ":" + value) == Some((Trim(key), Trim(value)))
  {
    var line := key + ":" + value;
    assert line[|key|] == ':';
    assert forall j | 0 <= j < |key| :: line[j] == key[j];
    assert IndexOf(line, ':') == Some(|key|);
    assert line[..|key|] == key;
    assert line[|key| + 1..] == value;
  }

  predicate HasKey(line: string, key: string) {
    LineField(line).Some? && LineField(line).value.0 == key
  }

  /** Some line of `lines` is a field named `key`. */
  predicate SomeLineHas(lines: seq<string>, key: string) {
    exists i | 0 <= i < |lines| :: HasKey(lines[i], key)
  }

  /** An element among all but the last, or the last element itself. */
  lemma SomeElementSplit<T>(xs: seq<T>, p: T -> bool)
    requires |xs| > 0
    ensures var prefix := xs[..|xs| - 1];
      (exists i | 0 <= i < |xs| :: p(xs[i])) <==>
        (exists i | 0 <= i < |prefix| :: p(prefix[i])) || p(xs[|xs| - 1])
  {
    var prefix := xs[..|xs| - 1];
    if exists i | 0 <= i < |xs| :: p(xs[i]) {
      var i :| 0 <= i < |xs| && p(xs[i]);
      if i < |prefix| {
        assert prefix[i] == xs[i];
      }
    }
    if exists i | 0 <= i < |prefix| :: p(prefix[i]) {
      var i :| 0 <= i < |prefix| && p(prefix[i]);
      assert xs[i] == prefix[i];
    }
  }

  /** A line among all but the last, or the last line itself. */
  lemma SomeLineHasSplit(lines: seq<string>, key: string)
    requires |lines| > 0
    ensures SomeLineHas(lines, key) <==>
      SomeLineHas(lines[..|lines| - 1], key) || HasKey(lines[|lines| - 1], key)
  {
    SomeElementSplit(lines, line => HasKey(line, key));
  }

  /** The fields of the block's lines; a later line overwrites an earlier
      one with the same key. */
  function Fields(lines: seq<string>): (fields: map<string, string>)
    ensures forall key :: key in fields <==> SomeLineHas(lines, key)
    decreases |lines|
  {
    if |lines| == 0 then map[]
    else
      var earlier := Fields(lines[..|lines| - 1]);
      var last := lines[|lines| - 1];
      var fields := match LineField(last)
        case None => earlier
        case Some(kv) => earlier[kv.0 := kv.1];
      assert forall key :: key in fields <==> SomeLineHas(lines, key) by {
        forall key ensures key in fields <==> SomeLineHas(lines, key) {
          SomeLineHasSplit(lines, key);
        }
      }
      fields
  }

  /** The last line with a key gives that key its value. */
  lemma {:induction false} LastLineWins(lines: seq<string>, key: string, i: nat)
    requires i < |lines| && HasKey(lines[i], key)
    requires forall j | i < j < |lines| :: !HasKey(lines[j], key)
    ensures key in Fields(lines) && Fields(lines)[key] == LineField(lines[i]).value.1
    decreases |lines|
  {
    if i < |lines| - 1 {
      var prefix := lines[..|lines| - 1];
      assert prefix[i] == lines[i];
      assert forall j | i < j < |prefix| :: prefix[j] == lines[j];
      LastLineWins(prefix, key, i);
      assert !HasKey(lines[|lines| - 1], key);
    }
  }

  /** `parseFrontmatter(content)`, with `None` for `null`. */
  function ParseFrontmatter(content: string): (r: Option<map<string, string>>)
    ensures r.Some? <==> Block(NormalizeNewlines(content)).Some?
  {
    match Block(NormalizeNewlines(content))
    case None => None
    case Some(b) => Some(Fields(Split(b, '\n')))
  }

  /** The block of a text made of an opening line, a block holding no
      closing `\n---` of its own, a closing line and anything after. */
  lemma BlockOfWritten(b: string, rest: string)
    requires forall m | 0 <= m < |b| :: !OccursAt(b + Closing, Closing, m)
    ensures Block(Opening + b + Closing + rest) == Some(b)
  {
    var text := Opening + b + Closing + rest;
    assert text[..|Opening|] == Opening;
    assert OccursAt(text, Closing, |Opening| + |b|) by {
      assert text[|Opening| + |b|..|Opening| + |b| + |Closing|] == Closing;
    }
    forall k | |Opening| <= k < |Opening| + |b| ensures !OccursAt(text, Closing, k) {
      var m := k - |Opening|;
      assert !OccursAt(b + Closing, Closing, m);
      assert (b + Closing)[m..m + |Closing|] == text[k..k + |Closing|];
    }
    var found := FindFrom(text, Closing, |Opening|);
    assert found == Some(|Opening| + |b|);
    assert text[|Opening|..|Opening| + |b|] == b;
  }

  /** Such a text, free of carriage returns, yields the block's fields. */
  lemma ParseWritten(b: string, rest: string)
    requires '\r' !in b && '\r' !in rest
    requires forall m | 0 <= m < |b| :: !OccursAt(b + Closing, Closing, m)
    ensures ParseFrontmatter(Opening + b + Closing + rest) == Some(Fields(Split(b, '\n')))
  {
    var text := Opening + b + Closing + rest;
    assert '\r' !in text;
    NoCarriageReturnUnchanged(text);
    BlockOfWritten(b, rest);
  }

  /** An opening line followed at once by `---` closes nothing: the
      closing `\n---` must come after the opening line's line feed. */
  lemma EmptyBlockNeedsItsOwnLine()
    ensures ParseFrontmatter("---\n---").None?
    ensures ParseFrontmatter("---\n\n---") == Some(map[])
  {
    ClosingOnOpeningLine();
    EmptyLineBlock();
  }

  lemma ClosingOnOpeningLine()
    ensures ParseFrontmatter("---\n---").None?
  {
    var text := "---\n---";
    NoCarriageReturnUnchanged(text);
    assert |text| == 7;
    assert forall k | 4 <= k <= |text| :: !OccursAt(text, Closing, k);
  }

  lemma EmptyLineBlock()
    ensures ParseFrontmatter("---\n\n---") == Some(map[])
  {
    ParseWritten("", "");
    assert Opening + "" + Closing + "" == "---\n\n---";
    assert Split("", '\n') == [""];
    assert LineField("").None?;
  }

  /** `!fm[key]`: the field is absent or empty. */
  predicate MissingField(fields: map<string, string>, key: string) {
    key !in fields || |fields[key]| == 0
  }

  /** The checks on one skill's SKILL.md file, given its parsed front
      matter: missing front matter is one issue and ends the checks;
      otherwise a missing name and a missing description are reported
      independently. */
  function SkillIssues(plugin: Json, skill: string, fm: Option<map<string, string>>): (issues: seq<Issue>)
    ensures SkillMissingFrontmatter(plugin, skill) in issues <==> fm.None?
    ensures fm.None? ==> issues == [SkillMissingFrontmatter(plugin, skill)]
    ensures |issues| <= 2
    ensures forall x | x in issues ::
      x == SkillMissingFrontmatter(plugin, skill) || x == SkillMissingName(plugin, skill) || x == SkillMissingDescription(plugin, skill)
    ensures fm.Some? ==>
      (SkillMissingName(plugin, skill) in issues <==> MissingField(fm.value, "name")) &&
      (SkillMissingDescription(plugin, skill) in issues <==> MissingField(fm.value, "description"))
  {
    match fm
    case None => [SkillMissingFrontmatter(plugin, skill)]
    case Some(fields) =>
      (if MissingField(fields, "name") then [SkillMissingName(plugin, skill)] else [])
      + (if MissingField(fields, "description") then [SkillMissingDescription(plugin, skill)] else [])
  }
}
