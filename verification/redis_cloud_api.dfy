/** The redis-cloud-api validator (validators/redis-cloud-api.ts): the base
    checks, then six independent checks on the raw Markdown of the rule
    file, each a disjunction of case-insensitive regular-expression tests.
    Every failing content check appends its own error, in a fixed order. */
module RedisCloudApi {
  import opened Wrappers
  import opened Text
  import opened Regex
  import opened Types
  import opened Checks
  import BaseValidator

  const Name: string := "redis-cloud-api"

  /** `(GET|POST|PUT|DELETE|PATCH)` */
  const Verbs: seq<string> := ["GET", "POST", "PUT", "DELETE", "PATCH"]
  const Verb: Re := OneOf(Verbs)

  /** `\s*` and `\s+` */
  const Spaces: Re := Star(Class(Space))
  const Spaces1: Re := Plus(Class(Space))

  const ApiBase: string := "https://" + "api.redislabs.com/v1/"

  // The five endpoint patterns, in source order.

  /** `\*\*Endpoint:?\*?\*?\s*`?VERB\s+\/[^`\n]+`?` */
  const BoldEndpoint: Re :=
    Cat(Lit("**Endpoint"), Cat(Opt(Lit(":")), Cat(Opt(Lit("*")), Cat(Opt(Lit("*")), Cat(Spaces,
    Cat(Opt(Lit("`")), Cat(Verb, Cat(Spaces1, Cat(Lit("/"),
    Cat(Plus(Class(NoneOf("`\n"))), Opt(Lit("`"))))))))))))

  /** `` `VERB\s+\/[^`]+` `` */
  const InlineEndpoint: Re :=
    Cat(Lit("`"), Cat(Verb, Cat(Spaces1, Cat(Lit("/"), Cat(Plus(Class(NoneOf("`"))), Lit("`"))))))

  /** `###\s+VERB\s+` */
  const HeadingEndpoint: Re :=
    Cat(Lit("###"), Cat(Spaces1, Cat(Verb, Spaces1)))

  /** `https:\/\/api\.redislabs\.com\/v1\/[a-zA-Z]` */
  const ApiUrl: Re :=
    Cat(Lit(ApiBase), Class(AsciiLetter))

  /** `-X\s+VERB\s+"https:\/\/api\.redislabs\.com` */
  const CurlWithMethod: Re :=
    Cat(Lit("-X"), Cat(Spaces1, Cat(Verb, Cat(Spaces1, Lit("\"https://api.redislabs.com")))))

  const EndpointPatterns: seq<Re> := [BoldEndpoint, InlineEndpoint, HeadingEndpoint, ApiUrl, CurlWithMethod]

  /** `hashes\s*name`, the section-heading patterns. */
  function Heading(hashes: string, name: string): Re {
    Cat(Lit(hashes), Cat(Spaces, Lit(name)))
  }

  /** `` ```lang[\s\S]*?keyword ``: a fenced block of that language with
      the keyword somewhere after the fence. */
  function FencedBlock(lang: string, keyword: Re): Re {
    Cat(Lit("```" + lang), Cat(Star(Class(AnyChar)), keyword))
  }

  const CurlBlock: Re := FencedBlock("bash", Cat(Lit("curl"), Class(Space)))

  const PythonBlock: Re :=
    FencedBlock("python", Alt(Lit("import"), Alt(Lit("requests"), Cat(Lit("def"), Class(Space)))))

  const TypeScriptBlock: Re :=
    FencedBlock("typescript", OneOf(["const", "let", "var", "async", "await", "fetch", "interface"]))

  /** `\*\*Common Errors:?\*\*` */
  const BoldCommonErrors: Re :=
    Cat(Lit("**Common Errors"), Cat(Opt(Lit(":")), Lit("**")))

  /** `###?\s*Common Errors` */
  const CommonErrorsHeading: Re :=
    Cat(Lit("##"), Cat(Opt(Lit("#")), Cat(Spaces, Lit("Common Errors"))))

  /** `\|\s*Code\s*\|\s*Meaning\s*\|` */
  const CodeMeaningHeader: Re :=
    Cat(Lit("|"), Cat(Spaces, Cat(Lit("Code"), Cat(Spaces, Cat(Lit("|"), Cat(Spaces,
    Cat(Lit("Meaning"), Cat(Spaces, Lit("|")))))))))

  /** `\|\s*\d{3}\s*\|`: a table cell holding an HTTP status code. */
  const StatusCodeCell: Re :=
    Cat(Lit("|"), Cat(Spaces, Cat(Class(Digit), Cat(Class(Digit), Cat(Class(Digit), Cat(Spaces, Lit("|")))))))

  /** `word\s*\[.*?\]\(.*?\)` */
  function LabelledLink(word: string): Re {
    Cat(Lit(word), Cat(Spaces, Cat(Lit("["), Cat(Star(Dot), Cat(Lit("]("), Cat(Star(Dot), Lit(")")))))))
  }

  /** `\[.*?\]\(https:\/\/redis\.io\/docs\/.*?\)` */
  const DocsLink: Re :=
    Cat(Lit("["), Cat(Star(Dot), Cat(Lit("](https://redis.io/docs/"), Cat(Star(Dot), Lit(")")))))

  predicate HasEndpoint(content: string) {
    exists re | re in EndpointPatterns :: Finds(re, content)
  }

  predicate HasCurlExample(content: string) {
    Finds(CurlBlock, content) || Finds(Heading("###", "curl"), content) || Finds(Heading("####", "curl"), content)
  }

  predicate HasPythonExample(content: string) {
    Finds(PythonBlock, content) || Finds(Heading("###", "Python"), content) || Finds(Heading("####", "Python"), content)
  }

  predicate HasTypeScriptExample(content: string) {
    || Finds(TypeScriptBlock, content)
    || Finds(Heading("###", "TypeScript"), content)
    || Finds(Heading("####", "TypeScript"), content)
  }

  predicate HasCommonErrorsTable(content: string) {
    || Finds(BoldCommonErrors, content)
    || Finds(CommonErrorsHeading, content)
    || Finds(CodeMeaningHeader, content)
    || Finds(StatusCodeCell, content)
  }

  predicate HasReferenceLink(content: string) {
    Finds(LabelledLink("Reference:"), content) || Finds(LabelledLink("References:"), content) || Finds(DocsLink, content)
  }

  /** Every message of this validator starts with "Missing ". */
  function Missing(what: string): string {
    "Missing " + what
  }

  const EndpointMessage: string :=
    Missing("endpoint documentation. Rules should document at least one API endpoint (e.g., **Endpoint:** `GET /path`)")
  const CurlMessage: string := Missing("curl example. Each rule should include a curl example")
  const PythonMessage: string := Missing("Python example. Each rule should include a Python example")
  const TypeScriptMessage: string := Missing("TypeScript example. Each rule should include a TypeScript example")
  const CommonErrorsMessage: string :=
    Missing("Common Errors table. Each rule should include a table of common error codes")
  const ReferenceMessage: string :=
    Missing("reference link. Each rule should include a reference link to Redis documentation")

  /** The six content messages, in the order they are reported. */
  const ContentMessages: seq<string> :=
    [EndpointMessage, CurlMessage, PythonMessage, TypeScriptMessage, CommonErrorsMessage, ReferenceMessage]

  function ContentChecks(content: string): (checks: seq<Check>)
    ensures CheckMessages(checks) == ContentMessages
  {
    [ Check(HasEndpoint(content), EndpointMessage),
      Check(HasCurlExample(content), CurlMessage),
      Check(HasPythonExample(content), PythonMessage),
      Check(HasTypeScriptExample(content), TypeScriptMessage),
      Check(HasCommonErrorsTable(content), CommonErrorsMessage),
      Check(HasReferenceLink(content), ReferenceMessage) ]
  }

  /** The six messages are pairwise distinct: they differ in length. */
  lemma ContentMessagesDistinct()
    ensures forall i, j | 0 <= i < j < |ContentMessages| :: ContentMessages[i] != ContentMessages[j]
  {
    assert |EndpointMessage| == 113 && |CurlMessage| == 61 && |PythonMessage| == 65;
    assert |TypeScriptMessage| == 73 && |CommonErrorsMessage| == 83 && |ReferenceMessage| == 88;
  }

  /** No content message is a base message. */
  lemma NotBaseMessage(impact: string, m: string)
    requires m in ContentMessages
    ensures m != BaseValidator.TitleMessage && m != BaseValidator.ExplanationMessage
    ensures m != BaseValidator.ImpactMessage(impact)
  {
    assert m[0] == 'M' && |m| > 60;
    assert BaseValidator.ImpactMessage(impact)[0] == 'I';
    assert |BaseValidator.TitleMessage| == 22 && |BaseValidator.ExplanationMessage| == 28;
  }

  /** The errors the content checks add, in check order. */
  function ContentErrors(content: string, file: string, ruleId: Option<string>): (errors: seq<ValidationError>)
    ensures AllAbout(errors, file, ruleId)
    ensures |errors| <= 6
    ensures EndpointMessage in Messages(errors) <==> !HasEndpoint(content)
    ensures CurlMessage in Messages(errors) <==> !HasCurlExample(content)
    ensures PythonMessage in Messages(errors) <==> !HasPythonExample(content)
    ensures TypeScriptMessage in Messages(errors) <==> !HasTypeScriptExample(content)
    ensures CommonErrorsMessage in Messages(errors) <==> !HasCommonErrorsTable(content)
    ensures ReferenceMessage in Messages(errors) <==> !HasReferenceLink(content)
    ensures IsSubsequence(Messages(errors), ContentMessages)
  {
    ContentReportNamed(content, file, ruleId);
    Collect(ContentChecks(content), file, ruleId)
  }

  lemma ContentReportNamed(content: string, file: string, ruleId: Option<string>)
    ensures var ms := Messages(Collect(ContentChecks(content), file, ruleId));
      && (EndpointMessage in ms <==> !HasEndpoint(content))
      && (CurlMessage in ms <==> !HasCurlExample(content))
      && (PythonMessage in ms <==> !HasPythonExample(content))
      && (TypeScriptMessage in ms <==> !HasTypeScriptExample(content))
      && (CommonErrorsMessage in ms <==> !HasCommonErrorsTable(content))
      && (ReferenceMessage in ms <==> !HasReferenceLink(content))
      && IsSubsequence(ms, ContentMessages)
  {
    var checks := ContentChecks(content);
    ContentReport(content, file, ruleId);
    assert checks[0] == Check(HasEndpoint(content), EndpointMessage);
    assert checks[1] == Check(HasCurlExample(content), CurlMessage);
    assert checks[2] == Check(HasPythonExample(content), PythonMessage);
    assert checks[3] == Check(HasTypeScriptExample(content), TypeScriptMessage);
    assert checks[4] == Check(HasCommonErrorsTable(content), CommonErrorsMessage);
    assert checks[5] == Check(HasReferenceLink(content), ReferenceMessage);
  }

  /** Each content message is reported exactly when its check fails. */
  lemma ContentReport(content: string, file: string, ruleId: Option<string>)
    ensures var checks := ContentChecks(content);
      var ms := Messages(Collect(checks, file, ruleId));
      && (forall i | 0 <= i < 6 :: checks[i].message in ms <==> !checks[i].passed)
      && IsSubsequence(ms, ContentMessages)
  {
    var checks := ContentChecks(content);
    CollectReportsFailures(checks, file, ruleId);
    ContentMessagesDistinct();
    forall i | 0 <= i < 6
      ensures checks[i].message in Messages(Collect(checks, file, ruleId)) <==> !checks[i].passed
    {
      CollectReportsCheck(checks, file, ruleId, i);
    }
  }

  /** The content is accepted: every one of the six checks holds. */
  predicate Complete(content: string) {
    && HasEndpoint(content) && HasCurlExample(content) && HasPythonExample(content)
    && HasTypeScriptExample(content) && HasCommonErrorsTable(content) && HasReferenceLink(content)
  }

  /** No content errors exactly when the content is complete. */
  lemma ContentErrorsEmpty(content: string, file: string, ruleId: Option<string>)
    ensures ContentErrors(content, file, ruleId) == [] <==> Complete(content)
  {
    var errors := ContentErrors(content, file, ruleId);
    if errors != [] {
      SubsequenceMembers(Messages(errors), ContentMessages);
      var m := Messages(errors)[0];
      assert m in ContentMessages;
      assert !Complete(content);
    }
  }

  /** `redisCloudApiValidator.validateRule(rule, file, content)`. */
  function ValidateRule(rule: Rule, file: string, content: string): (errors: seq<ValidationError>)
    ensures var base := BaseValidator.ValidateRule(rule, file, content);
      && |base| <= |errors| <= |base| + 6
      && errors[..|base|] == base
      && IsSubsequence(Messages(errors[|base|..]), ContentMessages)
      && (errors == base <==> Complete(content))
    ensures AllAbout(errors, file, Some(rule.id))
  {
    var base := BaseValidator.ValidateRule(rule, file, content);
    var added := ContentErrors(content, file, Some(rule.id));
    ContentErrorsEmpty(content, file, Some(rule.id));
    AppendAfter(base, added);
    AllAboutAppend(base, added, file, Some(rule.id));
    base + added
  }


  /** Each missing section is reported, by its own message, exactly when
      its check fails, whatever the base validator reports. */
  lemma ReportsMissingSections(rule: Rule, file: string, content: string)
    ensures var ms := Messages(ValidateRule(rule, file, content));
      && (EndpointMessage in ms <==> !HasEndpoint(content))
      && (CurlMessage in ms <==> !HasCurlExample(content))
      && (PythonMessage in ms <==> !HasPythonExample(content))
      && (TypeScriptMessage in ms <==> !HasTypeScriptExample(content))
      && (CommonErrorsMessage in ms <==> !HasCommonErrorsTable(content))
      && (ReferenceMessage in ms <==> !HasReferenceLink(content))
  {
    AfterBase(rule, file, content, ContentErrors(content, file, Some(rule.id)));
  }

  /** Appending content errors after the base errors: a content message is
      in the whole list exactly when it is among the added errors. */
  lemma AfterBase(rule: Rule, file: string, content: string, added: seq<ValidationError>)
    ensures var base := BaseValidator.ValidateRule(rule, file, content);
      forall m | m in ContentMessages :: m in Messages(base + added) <==> m in Messages(added)
  {
    var base := BaseValidator.ValidateRule(rule, file, content);
    SubsequenceMembers(Messages(base),
      [BaseValidator.TitleMessage, BaseValidator.ExplanationMessage, BaseValidator.ImpactMessage(rule.impact)]);
    MessagesAppend(base, added);
    forall m | m in ContentMessages ensures m !in Messages(base) {
      NotBaseMessage(rule.impact, m);
    }
  }

  // Adding text never removes a section.

  /** A section found in some text is found in any text containing it. */
  lemma MoreTextKeepsSections(p: string, c: string, q: string)
    ensures HasEndpoint(c) ==> HasEndpoint(p + c + q)
    ensures HasCurlExample(c) ==> HasCurlExample(p + c + q)
    ensures HasPythonExample(c) ==> HasPythonExample(p + c + q)
    ensures HasTypeScriptExample(c) ==> HasTypeScriptExample(p + c + q)
    ensures HasCommonErrorsTable(c) ==> HasCommonErrorsTable(p + c + q)
    ensures HasReferenceLink(c) ==> HasReferenceLink(p + c + q)
  {
    forall re | Finds(re, c) ensures Finds(re, p + c + q) {
      FindsInContext(re, p, c, q);
    }
  }

  /** Surrounding a rule file's text with more text never adds a content
      error: every message reported for the larger text is reported for
      the smaller. */
  lemma MoreTextNoNewMessages(p: string, c: string, q: string, file: string, ruleId: Option<string>)
    ensures forall m | m in Messages(ContentErrors(p + c + q, file, ruleId)) ::
      m in Messages(ContentErrors(c, file, ruleId))
  {
    MoreTextKeepsSections(p, c, q);
    SubsequenceMembers(Messages(ContentErrors(p + c + q, file, ruleId)), ContentMessages);
  }

  /** ... and there are no more of them. */
  lemma MoreTextFewerErrors(p: string, c: string, q: string, file: string, ruleId: Option<string>)
    ensures |ContentErrors(p + c + q, file, ruleId)| <= |ContentErrors(c, file, ruleId)|
  {
    MoreTextNoNewMessages(p, c, q, file, ruleId);
    ContentMessagesDistinct();
    SubsequencesNested(Messages(ContentErrors(p + c + q, file, ruleId)), Messages(ContentErrors(c, file, ruleId)), ContentMessages);
  }

  /** A `####` heading is also a `###` heading: the second alternative of
      each heading test is subsumed by the first. */
  lemma SubHeadingRedundant(name: string, c: string)
    ensures Finds(Heading("####", name), c) ==> Finds(Heading("###", name), c)
  {
    if Finds(Heading("####", name), c) {
      assert "#" + "###" == "####";
      DropLiteralPrefix("#", "###", Cat(Spaces, Lit(name)), c);
    }
  }

  /** The API base URL followed by a letter documents an endpoint. */
  lemma ApiUrlSuffices(p: string, letter: char, q: string)
    requires IsAsciiLetter(letter)
    ensures HasEndpoint(p + ApiBase + [letter] + q)
  {
    LitFull(ApiBase);
    assert FullMatch(Class(AsciiLetter), [letter]);
    CatFull(Lit(ApiBase), Class(AsciiLetter), ApiBase, [letter]);
    FullFound(ApiUrl, p, ApiBase + [letter], q);
    assert p + (ApiBase + [letter]) + q == p + ApiBase + [letter] + q;
    assert ApiUrl in EndpointPatterns;
  }

  /** `` `VERB /path` `` fully matches the inline endpoint pattern. */
  lemma InlineEndpointMatches(verb: string, gap: string, path: string)
    requires verb in Verbs
    requires |gap| > 0 && IsBlank(gap)
    requires |path| > 0 && '`' !in path
    ensures FullMatch(InlineEndpoint, "`" + (verb + (gap + ("/" + (path + "`")))))
  {
    var pathPart := Cat(Plus(Class(NoneOf("`"))), Lit("`"));
    LitFull("`");
    LitFull("/");
    LitFull(verb);
    OneOfMatches(Verbs, verb, 0, |verb|);
    PlusClassFull(Space, gap);
    PlusClassFull(NoneOf("`"), path);
    CatFull(Plus(Class(NoneOf("`"))), Lit("`"), path, "`");
    CatFull(Lit("/"), pathPart, "/", path + "`");
    CatFull(Spaces1, Cat(Lit("/"), pathPart), gap, "/" + (path + "`"));
    CatFull(Verb, Cat(Spaces1, Cat(Lit("/"), pathPart)), verb, gap + ("/" + (path + "`")));
    CatFull(Lit("`"), Cat(Verb, Cat(Spaces1, Cat(Lit("/"), pathPart))), "`", verb + (gap + ("/" + (path + "`"))));
  }

  /** An inline `` `VERB /path` `` documents an endpoint. */
  lemma InlineEndpointSuffices(p: string, verb: string, gap: string, path: string, q: string)
    requires verb in Verbs
    requires |gap| > 0 && IsBlank(gap)
    requires |path| > 0 && '`' !in path
    ensures HasEndpoint(p + "`" + verb + gap + "/" + path + "`" + q)
  {
    var x := "`" + (verb + (gap + ("/" + (path + "`"))));
    InlineEndpointMatches(verb, gap, path);
    FullFound(InlineEndpoint, p, x, q);
    assert p + x + q == p + "`" + verb + gap + "/" + path + "`" + q;
    assert InlineEndpoint in EndpointPatterns;
  }

  /** `###`, optional white space and a name fully match the heading pattern. */
  lemma HeadingMatches(gap: string, name: string)
    requires IsBlank(gap)
    ensures FullMatch(Heading("###", name), "###" + gap + name)
  {
    LitFull("###");
    StarClassFull(Space, gap);
    LitFull(name);
    CatFull(Spaces, Lit(name), gap, name);
    CatFull(Lit("###"), Cat(Spaces, Lit(name)), "###", gap + name);
    assert "###" + (gap + name) == "###" + gap + name;
  }

  /** A `### curl`, `### Python` or `### TypeScript` heading, with any white
      space after the hashes, is enough for its check. */
  lemma HeadingSuffices(p: string, gap: string, q: string)
    requires IsBlank(gap)
    ensures HasCurlExample(p + "###" + gap + "curl" + q)
    ensures HasPythonExample(p + "###" + gap + "Python" + q)
    ensures HasTypeScriptExample(p + "###" + gap + "TypeScript" + q)
  {
    forall name | name in ["curl", "Python", "TypeScript"]
      ensures Finds(Heading("###", name), p + "###" + gap + name + q)
    {
      HeadingMatches(gap, name);
      FullFound(Heading("###", name), p, "###" + gap + name, q);
      assert p + ("###" + gap + name) + q == p + "###" + gap + name + q;
    }
  }

  /** A table cell holding three digits, padded with white space, is a
      Common Errors table. */
  lemma StatusCodeCellSuffices(p: string, pad1: string, code: string, pad2: string, q: string)
    requires IsBlank(pad1) && IsBlank(pad2)
    requires |code| == 3 && forall k | 0 <= k < 3 :: IsDigit(code[k])
    ensures HasCommonErrorsTable(p + "|" + pad1 + code + pad2 + "|" + q)
  {
    var tail := Cat(Spaces, Lit("|"));
    LitFull("|");
    StarClassFull(Space, pad1);
    StarClassFull(Space, pad2);
    CatFull(Spaces, Lit("|"), pad2, "|");
    assert FullMatch(Class(Digit), code[2..]);
    assert FullMatch(Class(Digit), code[1..2]);
    assert FullMatch(Class(Digit), code[..1]);
    CatFull(Class(Digit), tail, code[2..], pad2 + "|");
    CatFull(Class(Digit), Cat(Class(Digit), tail), code[1..2], code[2..] + (pad2 + "|"));
    CatFull(Class(Digit), Cat(Class(Digit), Cat(Class(Digit), tail)), code[..1], code[1..2] + (code[2..] + (pad2 + "|")));
    var digits := code[..1] + (code[1..2] + (code[2..] + (pad2 + "|")));
    CatFull(Spaces, Cat(Class(Digit), Cat(Class(Digit), Cat(Class(Digit), tail))), pad1, digits);
    CatFull(Lit("|"), Cat(Spaces, Cat(Class(Digit), Cat(Class(Digit), Cat(Class(Digit), tail)))), "|", pad1 + digits);
    assert code == code[..1] + code[1..2] + code[2..];
    var x := "|" + (pad1 + digits);
    assert x == "|" + pad1 + code + pad2 + "|";
    FullFound(StatusCodeCell, p, x, q);
    assert p + x + q == p + "|" + pad1 + code + pad2 + "|" + q;
  }

  /** `Reference:`, optional white space and a one-line Markdown link is a
      reference link. */
  lemma ReferenceSuffices(p: string, gap: string, text: string, url: string, q: string)
    requires IsBlank(gap)
    requires forall k | 0 <= k < |text| :: !IsLineTerminator(text[k])
    requires forall k | 0 <= k < |url| :: !IsLineTerminator(url[k])
    ensures HasReferenceLink(p + "Reference:" + gap + "[" + text + "](" + url + ")" + q)
  {
    LitFull("Reference:");
    LitFull("[");
    LitFull("](");
    LitFull(")");
    StarClassFull(Space, gap);
    StarClassFull(NotLineTerminator, text);
    StarClassFull(NotLineTerminator, url);
    CatFull(Star(Dot), Lit(")"), url, ")");
    CatFull(Lit("]("), Cat(Star(Dot), Lit(")")), "](", url + ")");
    CatFull(Star(Dot), Cat(Lit("]("), Cat(Star(Dot), Lit(")"))), text, "](" + (url + ")"));
    CatFull(Lit("["), Cat(Star(Dot), Cat(Lit("]("), Cat(Star(Dot), Lit(")")))), "[", text + ("](" + (url + ")")));
    var link := "[" + (text + ("](" + (url + ")")));
    CatFull(Spaces, Cat(Lit("["), Cat(Star(Dot), Cat(Lit("]("), Cat(Star(Dot), Lit(")"))))), gap, link);
    CatFull(Lit("Reference:"), Cat(Spaces, Cat(Lit("["), Cat(Star(Dot), Cat(Lit("]("), Cat(Star(Dot), Lit(")")))))),
      "Reference:", gap + link);
    var x := "Reference:" + (gap + link);
    FullFound(LabelledLink("Reference:"), p, x, q);
    assert p + x + q == p + "Reference:" + gap + "[" + text + "](" + url + ")" + q;
  }

  /** Text without any of the characters `*`, `` ` ``, `#`, `|`, `:`, `-`
      and `[` documents none of the six sections: every alternative of
      every check starts with a literal holding one of them. */
  predicate NoMarkup(c: string) {
    '*' !in c && '`' !in c && '#' !in c && '|' !in c && ':' !in c && '-' !in c && '[' !in c
  }

  predicate IsMarkupChar(x: char) {
    x == '*' || x == '`' || x == '#' || x == '|' || x == ':' || x == '-' || x == '['
  }

  /** Text with no markup character at any position has no markup. */
  lemma NoMarkupByChars(c: string)
    requires forall i | 0 <= i < |c| :: !IsMarkupChar(c[i])
    ensures NoMarkup(c)
  {
    forall x | x in c ensures !IsMarkupChar(x) {
      var i :| 0 <= i < |c| && c[i] == x;
    }
  }

  /** Each endpoint pattern starts with a literal holding `*`, `` ` ``,
      `#`, `-`, or both `:` and `1`. */
  lemma EndpointNeedsMarkup(c: string)
    ensures HasEndpoint(c) ==> '*' in c || '`' in c || '#' in c || '-' in c || (':' in c && '1' in c)
  {
    LeadingLiteralNeedsChar("**Endpoint", BoldEndpoint.second, c, 0);
    LeadingLiteralNeedsChar("`", InlineEndpoint.second, c, 0);
    LeadingLiteralNeedsChar("###", HeadingEndpoint.second, c, 0);
    assert ApiBase[5] == ':' && ApiBase[27] == '1';
    LeadingLiteralNeedsChar(ApiBase, ApiUrl.second, c, 5);
    LeadingLiteralNeedsChar(ApiBase, ApiUrl.second, c, 27);
    LeadingLiteralNeedsChar("-X", CurlWithMethod.second, c, 0);
  }

  lemma NoMarkupNoEndpoint(c: string)
    requires NoMarkup(c)
    ensures !HasEndpoint(c)
  {
    EndpointNeedsMarkup(c);
  }

  lemma NoMarkupNoExamples(c: string)
    requires NoMarkup(c)
    ensures !HasCurlExample(c) && !HasPythonExample(c) && !HasTypeScriptExample(c)
  {
    forall lang, keyword | lang in ["bash", "python", "typescript"]
      ensures !Finds(FencedBlock(lang, keyword), c)
    {
      assert ("```" + lang)[0] == '`';
      LeadingLiteralNeedsChar("```" + lang, Cat(Star(Class(AnyChar)), keyword), c, 0);
    }
    forall name | name in ["curl", "Python", "TypeScript"]
      ensures !Finds(Heading("###", name), c) && !Finds(Heading("####", name), c)
    {
      LeadingLiteralNeedsChar("###", Cat(Spaces, Lit(name)), c, 0);
      LeadingLiteralNeedsChar("####", Cat(Spaces, Lit(name)), c, 0);
    }
  }

  lemma NoMarkupNoTableOrLink(c: string)
    requires NoMarkup(c)
    ensures !HasCommonErrorsTable(c) && !HasReferenceLink(c)
  {
    LeadingLiteralNeedsChar("**Common Errors", BoldCommonErrors.second, c, 0);
    LeadingLiteralNeedsChar("##", CommonErrorsHeading.second, c, 0);
    LeadingLiteralNeedsChar("|", CodeMeaningHeader.second, c, 0);
    LeadingLiteralNeedsChar("|", StatusCodeCell.second, c, 0);
    LeadingLiteralNeedsChar("Reference:", LabelledLink("Reference:").second, c, 9);
    LeadingLiteralNeedsChar("References:", LabelledLink("References:").second, c, 10);
    LeadingLiteralNeedsChar("[", DocsLink.second, c, 0);
  }

  /** Text without markup fails all six content checks, whatever the rule. */
  lemma NoMarkupFailsAll(rule: Rule, file: string, c: string)
    requires NoMarkup(c)
    ensures !Complete(c)
    ensures |ContentErrors(c, file, Some(rule.id))| == 6
    ensures |ValidateRule(rule, file, c)| >= 6
  {
    NoMarkupNoEndpoint(c);
    NoMarkupNoExamples(c);
    NoMarkupNoTableOrLink(c);
    AllFailed(ContentChecks(c));
  }
}
