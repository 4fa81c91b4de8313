/** Concrete inputs of the redis-cloud-api validator, taken from its test
    suite, with what the validator reports for each. Texts are written as
    concatenations so that the pieces a pattern matches stand apart. */
module CloudApiExamples {
  import opened Wrappers
  import opened Text
  import opened Regex
  import opened Types
  import opened RedisCloudApi
  import BaseValidator

  /** The rule the tests validate: identifier "1.1", a title, an
      explanation and the impact "HIGH". */
  const TestRule: Rule :=
    Rule("1.1", Some("Test Rule"), 1, None, "HIGH", None, Some("This is a test explanation."), Some([]), None, None)

  lemma TestRulePassesBase(content: string)
    ensures BaseValidator.ValidateRule(TestRule, "test.md", content) == []
  {
    assert !IsSpace(TestRule.title.value[0]);
    assert !IsSpace(TestRule.explanation.value[0]);
    assert "HIGH" == BaseValidator.ValidImpacts[1];
  }

  // The complete rule file of the tests, section by section.

  const Intro: string :=
    "\n## Create Subscription\n\nThis endpoint creates a new subscription.\n\n**Endpoint:** `POST /subscriptions`\n\n"

  const CurlFence: string := "\n\n```bash\n" + "curl -X POST \""

  const CurlTail: string :=
    "ubscriptions\" \\\n"
    + "  -H \"x-api-key: $API_KEY\" \\\n"
    + "  -H \"x-api-secret-key: $API_SECRET\" \\\n"
    + "  -H \"Content-Type: application/json\" \\\n"
    + "  -d '{\"name\": \"my-subscription\"}'\n"
    + "```\n\n"

  const CurlBody: string := CurlFence + ApiBase + ['s'] + CurlTail

  const CurlSection: string := "###" + " " + "curl" + CurlBody

  const PythonBody: string :=
    "\n\n```python\nimport requests\n\nresponse = requests.post(\n"
    + "    \"https://api.redislabs.com/v1/subscriptions\",\n"
    + "    headers={\"x-api-key\": API_KEY, \"x-api-secret-key\": API_SECRET},\n"
    + "    json={\"name\": \"my-subscription\"}\n"
    + ")\n```\n\n"

  const PythonSection: string := "###" + " " + "Python" + PythonBody

  const TypeScriptBody: string :=
    "\n\n```typescript\nconst response = await fetch(\"https://api.redislabs.com/v1/subscriptions\", {\n"
    + "  method: \"POST\",\n  headers: {\n    \"x-api-key\": API_KEY,\n"
    + "    \"x-api-secret-key\": API_SECRET,\n    \"Content-Type\": \"application/json\"\n  },\n"
    + "  body: JSON.stringify({ name: \"my-subscription\" })\n});\n```\n\n"

  const TypeScriptSection: string := "###" + " " + "TypeScript" + TypeScriptBody

  const ErrorsLead: string := "**Common Errors:**\n\n| Code | Meaning |\n|------|---------|\n"

  const ErrorsTail: string := " Invalid request body |\n| 401  | Authentication failed |\n| 403  | Insufficient permissions |\n\n"

  const ErrorsSection: string := ErrorsLead + "|" + " " + "400" + "  " + "|" + ErrorsTail

  const ReferenceText: string := "Redis Cloud API"

  const ReferenceUrl: string := "https://redis.io/docs/latest/operate/rc/api/"

  const ReferenceSection: string := "Reference:" + " " + "[" + ReferenceText + "](" + ReferenceUrl + ")" + "\n"

  const ValidContent: string :=
    Intro + CurlSection + PythonSection + TypeScriptSection + ErrorsSection + ReferenceSection

  /** A `### name` heading followed by any text is a section of that name. */
  lemma HeadedSections(body: string)
    ensures HasCurlExample("###" + " " + "curl" + body)
    ensures HasPythonExample("###" + " " + "Python" + body)
    ensures HasTypeScriptExample("###" + " " + "TypeScript" + body)
  {
    HeadingSuffices("", " ", body);
    assert "" + "###" + " " + "curl" + body == "###" + " " + "curl" + body;
    assert "" + "###" + " " + "Python" + body == "###" + " " + "Python" + body;
    assert "" + "###" + " " + "TypeScript" + body == "###" + " " + "TypeScript" + body;
  }

  /** An endpoint in a section's body is an endpoint of the section. */
  lemma EndpointUnderHeading(heading: string, body: string)
    requires HasEndpoint(body)
    ensures HasEndpoint(heading + body)
  {
    forall re | Finds(re, body) ensures Finds(re, heading + body) {
      FindsInContext(re, heading, body, "");
      assert heading + body + "" == heading + body;
    }
  }

  lemma CurlSectionChecks()
    ensures HasEndpoint(CurlSection) && HasCurlExample(CurlSection)
  {
    ApiUrlSuffices(CurlFence, 's', CurlTail);
    EndpointUnderHeading("###" + " " + "curl", CurlBody);
    HeadedSections(CurlBody);
  }

  lemma ExampleSectionsChecks()
    ensures HasPythonExample(PythonSection) && HasTypeScriptExample(TypeScriptSection)
  {
    HeadedSections(PythonBody);
    HeadedSections(TypeScriptBody);
  }

  lemma ErrorsSectionChecks()
    ensures HasCommonErrorsTable(ErrorsSection)
  {
    assert IsDigit("400"[0]) && IsDigit("400"[1]) && IsDigit("400"[2]);
    StatusCodeCellSuffices(ErrorsLead, " ", "400", "  ", ErrorsTail);
  }

  /** A `Reference:` label before a one-line Markdown link is a reference. */
  lemma ReferenceLine(text: string, url: string)
    requires forall k | 0 <= k < |text| :: !IsLineTerminator(text[k])
    requires forall k | 0 <= k < |url| :: !IsLineTerminator(url[k])
    ensures HasReferenceLink("Reference:" + " " + "[" + text + "](" + url + ")" + "\n")
  {
    ReferenceSuffices("", " ", text, url, "\n");
    assert "" + "Reference:" + " " + "[" + text + "](" + url + ")" + "\n"
      == "Reference:" + " " + "[" + text + "](" + url + ")" + "\n";
  }

  lemma ReferenceSectionChecks()
    ensures HasReferenceLink(ReferenceSection)
  {
    assert forall k | 0 <= k < |ReferenceText| :: !IsLineTerminator(ReferenceText[k]);
    assert forall k | 0 <= k < |ReferenceUrl| :: !IsLineTerminator(ReferenceUrl[k]);
    ReferenceLine(ReferenceText, ReferenceUrl);
  }

  /** A rule file made of six parts has each section its part has. */
  lemma SectionsInWhole(intro: string, curl: string, python: string, ts: string, errors: string, reference: string)
    ensures var whole := intro + curl + python + ts + errors + reference;
      && (HasEndpoint(curl) ==> HasEndpoint(whole))
      && (HasCurlExample(curl) ==> HasCurlExample(whole))
      && (HasPythonExample(python) ==> HasPythonExample(whole))
      && (HasTypeScriptExample(ts) ==> HasTypeScriptExample(whole))
      && (HasCommonErrorsTable(errors) ==> HasCommonErrorsTable(whole))
      && (HasReferenceLink(reference) ==> HasReferenceLink(whole))
  {
    var whole := intro + curl + python + ts + errors + reference;
    forall re | Finds(re, curl) ensures Finds(re, whole) {
      FindsInContext(re, intro, curl, python + ts + errors + reference);
      assert whole == intro + curl + (python + ts + errors + reference);
    }
    forall re | Finds(re, python) ensures Finds(re, whole) {
      FindsInContext(re, intro + curl, python, ts + errors + reference);
      assert whole == intro + curl + python + (ts + errors + reference);
    }
    forall re | Finds(re, ts) ensures Finds(re, whole) {
      FindsInContext(re, intro + curl + python, ts, errors + reference);
      assert whole == intro + curl + python + ts + (errors + reference);
    }
    forall re | Finds(re, errors) ensures Finds(re, whole) {
      FindsInContext(re, intro + curl + python + ts, errors, reference);
    }
    forall re | Finds(re, reference) ensures Finds(re, whole) {
      FindsInContext(re, intro + curl + python + ts + errors, reference, "");
      assert whole + "" == whole;
    }
  }

  /** The complete rule file of the tests passes all six content checks,
      so the valid rule with it has no errors at all. */
  lemma ValidContentNoErrors()
    ensures Complete(ValidContent)
    ensures RedisCloudApi.ValidateRule(TestRule, "test.md", ValidContent) == []
  {
    CurlSectionChecks();
    ExampleSectionsChecks();
    ErrorsSectionChecks();
    ReferenceSectionChecks();
    SectionsInWhole(Intro, CurlSection, PythonSection, TypeScriptSection, ErrorsSection, ReferenceSection);
    TestRulePassesBase(ValidContent);
  }

  /** Plain prose fails every content check: six errors or more. The text
      is the tests' "Just some plain text with nothing.". */
  lemma PlainTextFailsAll(c: string)
    requires c == "Just some plain text with nothing."
    ensures |RedisCloudApi.ValidateRule(TestRule, "test.md", c)| >= 6
  {
    PlainTextNoMarkup(c);
    NoMarkupFailsAll(TestRule, "test.md", c);
  }

  lemma PlainTextNoMarkup(c: string)
    requires c == "Just some plain text with nothing."
    ensures NoMarkup(c)
  {
    assert forall i | 0 <= i < |c| :: !IsMarkupChar(c[i]);
    NoMarkupByChars(c);
  }

  /** A curl call to a host other than the Redis Cloud API documents no
      endpoint. */
  lemma OtherHostIsNoEndpoint(c: string)
    requires c == "curl " + "https://" + "example" + ".com"
    ensures !HasEndpoint(c)
  {
    EndpointNeedsMarkup(c);
  }
}
