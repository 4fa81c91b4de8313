# Redis skill validators and plugin-marketplace checks, in Dafny

This project models two parts of a repository of Redis "skills". A skill is a collection of
Markdown rule files. The repository publishes its skills as Cursor and Claude plugins.

The first part is the rule validators of the `redis-development-build` package:
- a base validator that checks every rule's title, explanation and impact level;
- a `redis-development` validator that also requires a code example with a recognised label;
- a `redis-cloud-api` validator that also looks in the raw rule text for six sections: an
  endpoint, curl, Python and TypeScript examples, a Common Errors table and a reference link;
- the registry that picks a validator by skill name and falls back to the base validator.

The second part is the two marketplace validation scripts, for Cursor and for Claude. They
check the following:
- the marketplace file's name, owner and plugin list;
- duplicate plugin names;
- each plugin entry's name, source directory, `plugin.json`, logo and referenced paths;
- for Cursor, the front matter of every skill's `SKILL.md`.

Modules, in dependency order:

| module | file | what it holds |
|---|---|---|
| `Wrappers` | wrappers.dfy | `Option` |
| `Text` | text.dfy | JavaScript string operations: `trim`, `includes`, `startsWith`, `indexOf`, `split`, `join`, ASCII lower-casing |
| `Regex` | regex.dfy | a small regular-expression language: literals compared case-insensitively, character classes, concatenation, alternation and star. It gives the meaning of `RegExp.test` for anchored and unanchored patterns |
| `Types` | types.dfy | `Rule`, `CodeExample`, `ValidationError` |
| `Checks` | checks.dfy | a validator as a list of checks, each reporting its message when it fails |
| `BaseValidator`, `RedisDevelopment`, `RedisCloudApi` | base_validator.dfy, redis_development.dfy, redis_cloud_api.dfy | the three validators |
| `Registry` | registry.dfy | the validator registry |
| `CloudApiExamples` | cloud_api_examples.dfy | the redis-cloud-api validator on the rule texts of its test suite |
| `Json` | json.dfy | parsed JSON values, property access, JavaScript truthiness |
| `Manifest` | manifest.dfy | safe paths, path extraction, the name patterns, the duplicate scan, the marketplace file's own checks |
| `Frontmatter` | frontmatter.dfy | `parseFrontmatter` and the `SKILL.md` field checks |
| `Plugins` | plugins.dfy | the per-entry checks and a whole run of either script |

The scripts do three kinds of thing that are not pure computation:
- They report problems by printing messages. Here they produce a list of `Issue` values, in
  report order.
- They exit early. Here that becomes the end of the list.
- They read the file system. Here the file system is an `Env` parameter made of total
  functions. It says which directories and files exist, and what a plugin directory's manifest
  parses to for each script: the Claude script reads `.claude-plugin/plugin.json` and the Cursor
  script reads `.cursor-plugin/plugin.json`, two separate files. It also says which
  skill directories a plugin has with their `SKILL.md` text, and how `path.join` combines a
  plugin root with a source.

The marketplace file itself is a `JsonFile` argument: missing, unparsable, or a parsed value.

## Model

| member | source | states |
|---|---|---|
| Text.Trim | packages/redis-development-build/src/validators/base.ts:29 | `trim()` yields a slice of the text with only white space around it and none at either end; the result is empty exactly when the text is blank |
| Text.IndexOf | scripts/validate-cursor-plugins.mjs:64 | `indexOf` finds the first position holding the character, and reports none exactly when no position holds it |
| Text.Split | scripts/validate-cursor-plugins.mjs:63 | `split` on a one-character separator gives at least one piece, and no piece holds the separator |
| Text.JoinSplit | scripts/validate-cursor-plugins.mjs:63 | joining the pieces of a split with the separator restores the text |
| Text.SplitJoin | scripts/validate-cursor-plugins.mjs:63 | splitting the join of separator-free pieces restores the pieces |
| Checks.Collect | packages/redis-development-build/src/validators/base.ts:25-55 | a validator pushes one error per failed check, each naming the file and the rule id |
| Checks.CollectReportsFailures | packages/redis-development-build/src/validators/base.ts:25-55 | the reported messages are exactly those of the failed checks, in check order |
| Checks.CollectReportsCheck | packages/redis-development-build/src/validators/redis-cloud-api.ts:105-169 | a check with its own message is reported exactly when it fails |
| BaseValidator.ValidateRule | packages/redis-development-build/src/validators/base.ts:25-55 | title, explanation and impact are checked independently, in that order; each message appears exactly when its field is absent or blank, or when the impact is not one of the six levels; no errors exactly when all three hold; every error names the file and the rule |
| BaseValidator.BaseChecksReport | packages/redis-development-build/src/validators/base.ts:28-53 | each of the three messages is reported exactly when its check fails, in check order |
| BaseValidator.RunBaseValidations | packages/redis-development-build/src/validators/base.ts:63-69 | `runBaseValidations` gives the base validator's errors on every input |
| BaseValidator.IgnoresContent | packages/redis-development-build/src/validators/base.ts:25 | the base errors do not depend on the raw rule text |
| BaseValidator.ImpactMessageText | packages/redis-development-build/src/validators/base.ts:46-53 | the impact message quotes the rejected value and lists the six levels joined by ", " in declaration order |
| BaseValidator.LowerCaseImpactRejected | packages/redis-development-build/src/__tests__/base.test.ts:119-128 | impact levels are compared case-sensitively: "high" is invalid and "HIGH" is valid |
| RedisDevelopment.CodeExamples | packages/redis-development-build/src/validators/redis-development.ts:67-69 | the filter keeps exactly the examples whose code is not blank, each as often as it occurs, in their original order |
| RedisDevelopment.ExamplesMessage | packages/redis-development-build/src/validators/redis-development.ts:55-91 | the missing-examples, missing-code and unclassified messages are added exactly in their three disjoint cases; nothing is added exactly when some example with code has a bad or a good label |
| RedisDevelopment.ValidateRule | packages/redis-development-build/src/validators/redis-development.ts:51-94 | the base errors come first and at most one error follows; no error is added exactly when an example with code has a recognised label; each examples message appears exactly in its case |
| RedisDevelopment.IncorrectIsAlsoGood | packages/redis-development-build/src/validators/redis-development.ts:15-27 | a label containing "incorrect" also contains "correct", so it counts as both bad and good |
| RedisDevelopment.ClassificationIgnoresCase | packages/redis-development-build/src/validators/redis-development.ts:32-43 | labels are classified after lower-casing, so the letter case of a label does not matter |
| RedisDevelopment.KeywordAnywhere | packages/redis-development-build/src/validators/redis-development.ts:32-43 | a keyword anywhere in a label classifies it |
| RedisDevelopment.SnippetUnrecognised | packages/redis-development-build/src/__tests__/redis-development.test.ts:240-258 | "Snippet" is neither a bad nor a good label |
| RedisDevelopment.CodeUnrecognised | packages/redis-development-build/src/__tests__/redis-development.test.ts:240-258 | "Code" is neither a bad nor a good label |
| RedisDevelopment.UnrecognisedLabelsReported | packages/redis-development-build/src/__tests__/redis-development.test.ts:240-258 | examples labelled only "Snippet" and "Code" draw the unclassified message |
| RedisDevelopment.OneKindSuffices | packages/redis-development-build/src/__tests__/redis-development.test.ts:212-238 | a lone "Example" or a lone "Incorrect" example passes: one kind of example is enough |
| RedisDevelopment.OnlyMembersMatter | packages/redis-development-build/src/validators/redis-development.ts:67-82 | the examples check depends only on which examples there are, not on their order or repetition |
| RedisDevelopment.BlankCodeIgnored | packages/redis-development-build/src/validators/redis-development.ts:67-69 | inserting an example with blank code into a non-empty list changes nothing |
| RedisDevelopment.MoreExamplesStillPass | packages/redis-development-build/src/validators/redis-development.ts:81-91 | a list holding an example with code and a recognised label passes the examples check, and adding examples never makes it fail |
| RedisDevelopment.DefaultTestRulePasses | packages/redis-development-build/src/__tests__/redis-development.test.ts:13-34 | the test suite's default rule, with an Incorrect and a Correct example, has no errors |
| RedisCloudApi.ContentErrors | packages/redis-development-build/src/validators/redis-cloud-api.ts:109-166 | the six content checks each add their message exactly when their section is not found, in the order endpoint, curl, Python, TypeScript, errors table, reference |
| RedisCloudApi.ContentMessagesDistinct | packages/redis-development-build/src/validators/redis-cloud-api.ts:109-166 | the six content messages are pairwise different, so each names its own section |
| RedisCloudApi.ContentErrorsEmpty | packages/redis-development-build/src/validators/redis-cloud-api.ts:105-169 | no content errors exactly when all six sections are found |
| RedisCloudApi.ValidateRule | packages/redis-development-build/src/validators/redis-cloud-api.ts:105-169 | the base errors come first, then one error per missing section; every error names the file and the rule |
| RedisCloudApi.ReportsMissingSections | packages/redis-development-build/src/validators/redis-cloud-api.ts:109-166 | in the full error list, each section's message appears exactly when that section is missing |
| RedisCloudApi.MoreTextKeepsSections | packages/redis-development-build/src/validators/redis-cloud-api.ts:35-97 | the detectors are unanchored: a section found in a text is found in any text containing it |
| RedisCloudApi.MoreTextNoNewMessages | packages/redis-development-build/src/validators/redis-cloud-api.ts:105-169 | surrounding a rule text with more text never adds a content message |
| RedisCloudApi.MoreTextFewerErrors | packages/redis-development-build/src/validators/redis-cloud-api.ts:105-169 | surrounding a rule text with more text never increases the number of content errors |
| RedisCloudApi.SubHeadingRedundant | packages/redis-development-build/src/validators/redis-cloud-api.ts:45-47 | a text with a `####` heading also has the `###` heading, so the `####` alternatives add nothing |
| RedisCloudApi.ApiUrlSuffices | packages/redis-development-build/src/validators/redis-cloud-api.ts:28 | the API base URL `https://api.redislabs.com/v1/` followed by a letter documents an endpoint |
| RedisCloudApi.InlineEndpointMatches | packages/redis-development-build/src/validators/redis-cloud-api.ts:26 | a backquoted HTTP verb, white space, a slash and a path without backquotes fully match the inline endpoint pattern |
| RedisCloudApi.InlineEndpointSuffices | packages/redis-development-build/src/validators/redis-cloud-api.ts:26 | such an inline endpoint anywhere in a text documents an endpoint |
| RedisCloudApi.HeadingMatches | packages/redis-development-build/src/validators/redis-cloud-api.ts:46 | `###`, optional white space and a section name fully match the heading pattern |
| RedisCloudApi.HeadingSuffices | packages/redis-development-build/src/validators/redis-cloud-api.ts:42-73 | a `### curl`, `### Python` or `### TypeScript` heading anywhere gives that example |
| RedisCloudApi.StatusCodeCellSuffices | packages/redis-development-build/src/validators/redis-cloud-api.ts:84 | a table cell holding three digits gives the Common Errors table |
| RedisCloudApi.ReferenceSuffices | packages/redis-development-build/src/validators/redis-cloud-api.ts:93 | `Reference:` followed by a one-line Markdown link gives the reference link |
| RedisCloudApi.EndpointNeedsMarkup | packages/redis-development-build/src/validators/redis-cloud-api.ts:24-30 | every endpoint pattern needs one of `*`, a backquote, `#` or `-`, or both `:` and `1`, in the text |
| RedisCloudApi.NoMarkupByChars | packages/redis-development-build/src/validators/redis-cloud-api.ts:24-97 | a text with no markup character at any position counts as free of markup |
| RedisCloudApi.NoMarkupNoEndpoint | packages/redis-development-build/src/validators/redis-cloud-api.ts:24-37 | a text without markup characters documents no endpoint |
| RedisCloudApi.NoMarkupNoExamples | packages/redis-development-build/src/validators/redis-cloud-api.ts:42-73 | a text without markup characters has no curl, Python or TypeScript example |
| RedisCloudApi.NoMarkupNoTableOrLink | packages/redis-development-build/src/validators/redis-cloud-api.ts:78-97 | a text without markup characters has neither an errors table nor a reference link |
| RedisCloudApi.NoMarkupFailsAll | packages/redis-development-build/src/validators/redis-cloud-api.ts:105-169 | a text without markup fails all six content checks, so it draws at least six errors |
| CloudApiExamples.TestRulePassesBase | packages/redis-development-build/src/__tests__/redis-cloud-api.test.ts:13-23 | the tests' rule passes the base checks whatever the content |
| CloudApiExamples.CurlSectionChecks | packages/redis-development-build/src/__tests__/redis-cloud-api.test.ts:28-82 | the curl section of the tests' valid content documents an endpoint and a curl example |
| CloudApiExamples.ExampleSectionsChecks | packages/redis-development-build/src/__tests__/redis-cloud-api.test.ts:28-82 | its Python and TypeScript sections give those examples |
| CloudApiExamples.ErrorsSectionChecks | packages/redis-development-build/src/__tests__/redis-cloud-api.test.ts:28-82 | its errors section gives the Common Errors table |
| CloudApiExamples.ReferenceSectionChecks | packages/redis-development-build/src/__tests__/redis-cloud-api.test.ts:28-82 | its reference line gives the reference link |
| CloudApiExamples.SectionsInWhole | packages/redis-development-build/src/validators/redis-cloud-api.ts:35-97 | a rule file assembled from six parts has every section any one of its parts has |
| CloudApiExamples.ValidContentNoErrors | packages/redis-development-build/src/__tests__/redis-cloud-api.test.ts:92-102 | the tests' rule with the valid content draws no errors |
| CloudApiExamples.PlainTextNoMarkup | packages/redis-development-build/src/__tests__/redis-cloud-api.test.ts:643-653 | the tests' plain sentence holds no markup character |
| CloudApiExamples.PlainTextFailsAll | packages/redis-development-build/src/__tests__/redis-cloud-api.test.ts:643-653 | the tests' plain sentence draws at least six errors |
| CloudApiExamples.OtherHostIsNoEndpoint | packages/redis-development-build/src/__tests__/redis-cloud-api.test.ts:246-275 | a curl call to `https://example.com` documents no endpoint |
| Registry.Lookup | packages/redis-development-build/src/validators/index.ts:24-26 | a lookup finds a value exactly when the key is registered, and it is the value of the first entry under that key |
| Registry.GetValidator | packages/redis-development-build/src/validators/index.ts:24-26 | a registered name gives its validator, and any other name gives the base validator |
| Registry.Keys | packages/redis-development-build/src/validators/index.ts:31-33 | `Object.keys` lists one key per entry, and exactly the registered keys |
| Registry.GetValidatorNames | packages/redis-development-build/src/validators/index.ts:31-33 | the names are exactly the registered keys, one per validator |
| Registry.RegisteredUnderOwnName | packages/redis-development-build/src/validators/index.ts:13-17 | each validator is registered under its own name and looked up by it |
| Registry.NamesAreExactlyRegistered | packages/redis-development-build/src/validators/index.ts:13-33 | a name is listed exactly when the validator it looks up carries that name |
| Registry.ValidatorNamesListed | packages/redis-development-build/src/__tests__/registry.test.ts:53-77 | the names are "base", "redis-development" and "redis-cloud-api", in that order |
| Registry.UnknownNameGetsBase | packages/redis-development-build/src/__tests__/registry.test.ts:38-49 | unknown names, the empty name included, get the base validator |
| Registry.BaseErrorsFirst | packages/redis-development-build/src/validators/redis-development.ts:51-53 | every validator reports the base errors first, and a rule passing any validator passes the base checks |
| Registry.ErrorsAboutRule | packages/redis-development-build/src/types.ts:10-14 | every validator's errors name the validated file and rule |
| Json.Get | scripts/validate-cursor-plugins.mjs:34-41 | a property read finds a value exactly when some member has the key, and the value is that of the last such member |
| Json.LaterMemberWins | scripts/validate-cursor-plugins.mjs:34-41 | a later duplicate key overrides earlier ones |
| Json.OtherKeysIgnored | scripts/validate-cursor-plugins.mjs:34-41 | members under other keys do not affect a property read |
| Manifest.SafePathChars | scripts/validate-cursor-plugins.mjs:43-48 | a path is safe exactly when it is non-empty, its first character is neither `/` nor `~`, and it has no two consecutive dots |
| Manifest.SafePathExamples | scripts/validate-cursor-plugins.mjs:43-48 | "skills", "./skills" and "plugins/redis" are safe; "", "/etc", "~/x", "../x" and "a..b" are not |
| Manifest.Strings | scripts/validate-cursor-plugins.mjs:52 | filtering an array keeps exactly its string elements, and never more elements than it had |
| Manifest.StringsAppend | scripts/validate-cursor-plugins.mjs:52 | filtering distributes over concatenation |
| Manifest.StringsOfStrings | scripts/validate-cursor-plugins.mjs:52 | an array of strings keeps every element, in order |
| Manifest.ExtractPaths | scripts/validate-cursor-plugins.mjs:50-55 | a string is its one path, an array lists its string elements in order, each once per occurrence (the filter's content is fixed by StringsAppend and StringsOfStrings), and any other value lists nothing |
| Manifest.KebabPatternExact | scripts/validate-cursor-plugins.mjs:21-22 | the anchored name pattern accepts exactly the non-empty names with a lower-case letter or digit at both ends and allowed characters between |
| Manifest.MarketplaceNameIsPluginName | scripts/validate-cursor-plugins.mjs:21-22 | every valid marketplace name is a valid plugin name |
| Manifest.NamePatternExamples | scripts/validate-claude-plugins.mjs:20-21 | "redis-development", "a" and "v1.2" are plugin names; "v1.2" is not a marketplace name; "", "-a", "a." and "Redis" are not plugin names |
| Manifest.FindDuplicates | scripts/validate-cursor-plugins.mjs:143-150 | the one-pass scan with a set of seen names reports exactly the reference list of duplicates |
| Manifest.DuplicateCount | scripts/validate-claude-plugins.mjs:83-90 | a comparable name given k > 0 times is reported k - 1 times; arrays and objects are never reported |
| Manifest.MarketplaceNameIssues | scripts/validate-cursor-plugins.mjs:124-130 | a falsy name is reported as missing; otherwise the name is reported exactly when it is not a kebab-case string (a truthy non-string always is); at most one issue |
| Manifest.PluginList | scripts/validate-cursor-plugins.mjs:136-139 | the plugin list is usable exactly when it is a non-empty array |
| Manifest.HeaderIssues | scripts/validate-claude-plugins.mjs:66-81 | the marketplace name (missing, or not kebab case), the owner's name and the plugin list are each reported exactly when they fail, in that order, and the header reports no other kind of issue |
| Frontmatter.NormalizeNewlines | scripts/validate-cursor-plugins.mjs:58 | the CRLF replacement never lengthens the text |
| Frontmatter.NoCarriageReturnUnchanged | scripts/validate-cursor-plugins.mjs:58 | text without carriage returns is left unchanged |
| Frontmatter.NormalizeAppend | scripts/validate-cursor-plugins.mjs:58 | normalising distributes over a concatenation whose first part does not end in a carriage return |
| Frontmatter.CrLfBecomesLineFeed | scripts/validate-cursor-plugins.mjs:58 | a CRLF between two pieces without carriage returns becomes a single line feed |
| Frontmatter.Block | scripts/validate-cursor-plugins.mjs:59-60 | a block is found exactly when the text opens with `---` and a line feed and a later `\n---` follows; it is what lies before the first such closing |
| Frontmatter.LineField | scripts/validate-cursor-plugins.mjs:64-69 | a line gives a field exactly when it holds a colon that is not its first character |
| Frontmatter.LineFieldOf | scripts/validate-cursor-plugins.mjs:64-67 | a line `key:value` with a colon-free key reads back as the trimmed key and value |
| Frontmatter.Fields | scripts/validate-cursor-plugins.mjs:62-71 | the keys are exactly those of the lines that give a field |
| Frontmatter.LastLineWins | scripts/validate-cursor-plugins.mjs:68 | the last line with a key gives that key its value |
| Frontmatter.ParseFrontmatter | scripts/validate-cursor-plugins.mjs:57-72 | the front matter is found exactly when the normalised text has a block |
| Frontmatter.BlockOfWritten | scripts/validate-cursor-plugins.mjs:59-60 | an opening line, a block with no closing of its own and a closing line give back that block |
| Frontmatter.ParseWritten | scripts/validate-cursor-plugins.mjs:57-72 | such a text without carriage returns yields the fields of the block's lines |
| Frontmatter.EmptyBlockNeedsItsOwnLine | scripts/validate-cursor-plugins.mjs:59 | "---\n---" has no front matter, while "---\n\n---" has empty front matter |
| Frontmatter.SkillIssues | scripts/validate-cursor-plugins.mjs:94-110 | missing front matter is the only issue; otherwise a missing name and a missing description are reported independently, each exactly when its field is absent or empty |
| Plugins.PathIssues | scripts/validate-cursor-plugins.mjs:230-243 | each listed path is reported unsafe exactly when it is unsafe, and missing exactly when it is safe but does not exist; nothing else is reported; a single path draws exactly its one issue or none |
| Plugins.PathIssuesAppend | scripts/validate-cursor-plugins.mjs:229-243 | the paths are checked one by one in list order: the issues of a concatenation are the issues of its parts, in order, so a path listed twice is reported twice |
| Plugins.OnlySafePathsLookedUp | scripts/validate-cursor-plugins.mjs:230-238 | existence is consulted only for safe paths |
| Plugins.FieldPathIssues | scripts/validate-claude-plugins.mjs:139-165 | every path issue of every path field the plugin.json has is reported, every reported issue is one of its own field's path issues, and a single field draws exactly its own issues |
| Plugins.FieldPathIssuesAppend | scripts/validate-cursor-plugins.mjs:227-247 | the fields are checked one by one in list order: the issues of a concatenation of field lists are the issues of its parts, in order, so each field's issues appear once, in field order |
| Plugins.LogoIssues | scripts/validate-cursor-plugins.mjs:204-216 | a present logo is reported exactly when it is not a safe path to an existing file, as unsafe before not found |
| Plugins.SkillFileIssues | scripts/validate-cursor-plugins.mjs:74-112 | every SKILL.md issue of every skill directory is reported, every reported issue is one of some directory's own SKILL.md issues, and a single directory draws exactly its own issues |
| Plugins.SkillFileIssuesAppend | scripts/validate-cursor-plugins.mjs:85-111 | the skill directories are checked one by one in listing order: the issues of a concatenation are the issues of its parts, in order |
| Plugins.PluginJsonIssues | scripts/validate-cursor-plugins.mjs:190-247 | a missing or unparsable plugin.json is the one issue, a falsy one draws none; otherwise the issues are exactly the missing name (when the name is falsy), then the logo issues (Cursor only), then the path issues, then the SKILL.md issues (Cursor only); the Claude script never reports a logo or skill issue, and no issue is about the entry's name or source |
| Plugins.SourceIssues | scripts/validate-cursor-plugins.mjs:167-247 | an invalid source, an unsafe resolved path or a missing directory is reported exactly when it occurs and is then the one issue; otherwise the plugin.json checks of the resolved directory are the issues |
| Plugins.EntryIssues | scripts/validate-cursor-plugins.mjs:154-248 | a falsy name is the entry's only issue; otherwise the name is reported exactly when it is not a string matching the plugin-name pattern, and the name issue, if any, is followed by exactly the source and plugin.json checks of the entry |
| Plugins.UnsafeSourceStops | scripts/validate-cursor-plugins.mjs:172-182 | a source resolving to an unsafe path is the entry's last issue, after at most the name issue |
| Plugins.PluginJsonCursorMore | scripts/validate-claude-plugins.mjs:125-165 | when a plugin directory's `.cursor-plugin/plugin.json` and `.claude-plugin/plugin.json` parse alike, the Cursor plugin.json checks report everything the Claude ones report, plus only logo and skill-file issues |
| Plugins.CursorChecksMore | scripts/validate-claude-plugins.mjs:94-166 | without a plugin root, and when the entry's directory has two manifests that parse alike, the Cursor script reports everything the Claude script reports for an entry, plus only logo and skill-file issues |
| Plugins.ManifestsAreSeparate | scripts/validate-claude-plugins.mjs:126-137 | the two manifests are separate files: a directory with only a nameless `.claude-plugin/plugin.json` draws the missing-name issue from the Claude checks and not from the Cursor checks |
| Plugins.DuplicateIssues | scripts/validate-cursor-plugins.mjs:143-150 | a comparable name given k > 0 times draws k - 1 duplicate issues, and the scan reports nothing else |
| Plugins.AllEntryIssues | scripts/validate-cursor-plugins.mjs:154-248 | the entry checks report only entry issues, each one of some entry's own issues, and a single entry draws exactly its own issues |
| Plugins.AllEntryIssuesAppend | scripts/validate-claude-plugins.mjs:94-166 | the entries are checked one by one in order: the issues of a concatenation of entry lists are the issues of its parts, in order, so each entry's issues appear once, in entry order |
| Plugins.EntryIssuesIncluded | scripts/validate-cursor-plugins.mjs:154-248 | each entry's issues are reported whatever the other entries hold |
| Plugins.Run | scripts/validate-cursor-plugins.mjs:116-122 | a missing or unparsable marketplace file is the only issue |
| Plugins.FalsyManifestPasses | scripts/validate-claude-plugins.mjs:63-64 | a marketplace file holding a falsy value ends the run with nothing reported |
| Plugins.UnusablePluginListStops | scripts/validate-cursor-plugins.mjs:136-139 | without a non-empty plugin list only the file's own checks run, and they report the list |
| Plugins.RunParts | scripts/validate-cursor-plugins.mjs:124-248 | a run reports the file's own checks, then the duplicates, then every entry's checks |
| Plugins.RunReportsDuplicates | scripts/validate-claude-plugins.mjs:83-90 | in a whole run, a comparable name given k > 0 times is reported as a duplicate k - 1 times |
| Plugins.RunReportsEntry | scripts/validate-claude-plugins.mjs:94-166 | in a whole run, every entry's own issues are reported |

## Left out

- Message text and console output. The scripts print messages and the model returns `Issue`
  values instead. The validators' messages are modelled exactly.
- Warnings. A skill directory without `SKILL.md` and a marketplace without a
  `metadata.description` only draw warnings, so they appear as no issue.
- File-system access, `process.exit` and the script's root directory. `existsSync`,
  `statSync`, `readdirSync`, `readFileSync` and `path.join` are `Env` fields.
- The normalisation done by `path.resolve` and `path.join`. Referenced paths are looked up by
  `(directory, path)` pairs as written.
- Plugin entries that are `null`. In JavaScript, reading their `name` throws a TypeError that
  aborts the script; here they are entries without fields.
- A truthy `plugin.json` that is not an object. `in` on it throws; here it has no path fields.
- A truthy `metadata.pluginRoot` that is not a string. `path.join` on it throws; here it is
  treated as no plugin root.
- Manifest.MarketplaceNameIssues: a truthy non-string marketplace name is always reported as
  not kebab-case. JavaScript's `test` first turns the value into text, so `true` or `1` passes
  there; `String()` of booleans, numbers and arrays is not modelled.
- Plugins.EntryIssues: a truthy non-string plugin name is always reported as not kebab-case,
  for the same reason; in JavaScript a name such as `["redis"]` or `1` passes.
- Plugins.CursorChecksMore: compares the two scripts only for a plugin directory whose two
  manifests parse alike. When they differ, no inclusion holds, as ManifestsAreSeparate shows.
- Manifest.NameMatches: only string names are matched. JavaScript converts other values to
  text before testing them. A non-string name is therefore treated as failing the pattern.
- The PluginJsonUnparsable issue names the plugin, while the script's message names the file
  path.
- Unicode beyond ASCII. `toLowerCase` and the `/i` flag fold only ASCII letters here. Strings
  are sequences of characters, not UTF-16 code units.
- Numbers. JSON numbers are `real`s, not IEEE doubles.
- Prototype keys. `getValidator("constructor")` and a front-matter key `__proto__` reach
  `Object.prototype` in JavaScript; the model looks up only the registry's own keys and stores
  every front-matter key as data.
- `validateSkill`. The optional skill-wide check is defined by none of the three validators.
- The build and CLI wiring. `validate.ts` and `config.ts` are not part of this model.
- CloudApiExamples.OtherHostIsNoEndpoint proves only `curl https://example.com`, not the test's
  whole text. The proof relies on which characters each endpoint pattern needs, and the rest of
  that text holds a markup character.
- Frontmatter.NormalizeNewlines states only that the result is no longer than the input. The
  lemmas NoCarriageReturnUnchanged, NormalizeAppend and CrLfBecomesLineFeed state what it does.
- Plugins.Run states its contract only for a missing or unparsable file. The lemmas
  FalsyManifestPasses, UnusablePluginListStops, RunParts, RunReportsDuplicates and
  RunReportsEntry state the rest.
- RedisDevelopment.ValidateRule follows the code. The file's header comment and the
  missing-examples message ask for a bad AND a good example, but the code accepts a bad OR a
  good one (lines 84-91).
