/** The redis-development validator (validators/redis-development.ts): the
    base checks, then one check on the code examples. A rule needs at least
    one example; at least one example whose code is not blank; and, among
    those, at least one whose label names a bad OR a good example. Only the
    first failing step reports, and at most one error is added to the base
    errors. */
module RedisDevelopment {
  import opened Wrappers
  import opened Text
  import opened Types
  import opened Checks
  import BaseValidator

  const Name: string := "redis-development"

  /** Keywords that mark a label as a bad example. */
  const BadLabels: seq<string> := ["incorrect", "wrong", "bad", "avoid"]

  /** Keywords that mark a label as a good example. */
  const GoodLabels: seq<string> := ["correct", "good", "usage", "implementation", "example", "recommended"]

  const MissingExamplesMessage: string := "Missing examples (need at least one bad and one good example)"

  const MissingCodeMessage: string := "Missing code examples"

  const UnclassifiedMessage: string := "Examples must include at least one bad/incorrect or good/correct example"

  /** The lower-cased label contains one of the keywords. */
  predicate MentionsAny(labelText: string, keywords: seq<string>) {
    exists k | k in keywords :: Contains(LowerStr(labelText), k)
  }

  predicate IsBadExample(labelText: string) {
    MentionsAny(labelText, BadLabels)
  }

  predicate IsGoodExample(labelText: string) {
    MentionsAny(labelText, GoodLabels)
  }

  /** The example has code that is not only white space. */
  predicate HasCode(e: CodeExample) {
    !IsBlank(e.code)
  }

  /** Some example with code has a recognised label. */
  predicate Classified(examples: seq<CodeExample>) {
    exists e | e in examples :: HasCode(e) && (IsBadExample(e.labelText) || IsGoodExample(e.labelText))
  }

  /** The examples with code, in their original order: each example with
      code is kept as often as it occurs, every other is dropped. */
  function CodeExamples(examples: seq<CodeExample>): (r: seq<CodeExample>)
    ensures forall e :: e in r <==> e in examples && HasCode(e)
    ensures forall e :: Count(r, e) == if HasCode(e) then Count(examples, e) else 0
    ensures IsSubsequence(r, examples)
  {
    if |examples| == 0 then []
    else
      var first := examples[0];
      var rest := CodeExamples(examples[1..]);
      assert examples == [first] + examples[1..];
      CountCons(first, examples[1..]);
      if |Trim(first.code)| > 0 then
        SubsequenceKeep(first, rest, examples[1..]);
        CountCons(first, rest);
        [first] + rest
      else
        SubsequenceSkip(first, rest, examples[1..]);
        rest
  }

  /** The one message the examples check adds, if any. */
  function ExamplesMessage(examples: Option<seq<CodeExample>>): (m: Option<string>)
    ensures m == Some(MissingExamplesMessage) <==> examples.None? || |examples.value| == 0
    ensures m == Some(MissingCodeMessage) <==>
      examples.Some? && |examples.value| > 0 && forall e | e in examples.value :: !HasCode(e)
    ensures m == Some(UnclassifiedMessage) <==>
      examples.Some? && (exists e | e in examples.value :: HasCode(e)) && !Classified(examples.value)
    ensures m == None <==> examples.Some? && Classified(examples.value)
  {
    MessagesDiffer();
    if examples.None? || |examples.value| == 0 then Some(MissingExamplesMessage)
    else
      var withCode := CodeExamples(examples.value);
      if |withCode| == 0 then
        assert forall e | e in examples.value :: e !in withCode;
        Some(MissingCodeMessage)
      else
        assert withCode[0] in withCode;
        var hasBad := exists e | e in withCode :: IsBadExample(e.labelText);
        var hasGood := exists e | e in withCode :: IsGoodExample(e.labelText);
        if !hasBad && !hasGood then Some(UnclassifiedMessage) else None
  }

  lemma MessagesDiffer()
    ensures MissingExamplesMessage != MissingCodeMessage
    ensures MissingExamplesMessage != UnclassifiedMessage
    ensures MissingCodeMessage != UnclassifiedMessage
  {
    assert |MissingExamplesMessage| == 61 && |MissingCodeMessage| == 21 && |UnclassifiedMessage| == 72;
  }

  /** None of the three messages can come from the base validator. */
  lemma NotBaseMessages(impact: string, m: string)
    requires m in {MissingExamplesMessage, MissingCodeMessage, UnclassifiedMessage}
    ensures m != BaseValidator.TitleMessage
    ensures m != BaseValidator.ExplanationMessage
    ensures m != BaseValidator.ImpactMessage(impact)
  {
    assert BaseValidator.ImpactMessage(impact)[0] == 'I';
    assert |BaseValidator.TitleMessage| == 22 && |BaseValidator.ExplanationMessage| == 28;
    assert |MissingExamplesMessage| == 61 && |UnclassifiedMessage| == 72;
    assert MissingCodeMessage[8] == 'c';
  }

  /** `redisDevelopmentValidator.validateRule(rule, file, content)`. */
  function ValidateRule(rule: Rule, file: string, content: string): (errors: seq<ValidationError>)
    ensures var base := BaseValidator.ValidateRule(rule, file, content);
      && |base| <= |errors| <= |base| + 1
      && errors[..|base|] == base
      && (errors == base <==> rule.examples.Some? && Classified(rule.examples.value))
    ensures AllAbout(errors, file, Some(rule.id))
    ensures MissingExamplesMessage in Messages(errors) <==>
      rule.examples.None? || |rule.examples.value| == 0
    ensures MissingCodeMessage in Messages(errors) <==>
      rule.examples.Some? && |rule.examples.value| > 0 && forall e | e in rule.examples.value :: !HasCode(e)
    ensures UnclassifiedMessage in Messages(errors) <==>
      rule.examples.Some? && (exists e | e in rule.examples.value :: HasCode(e)) && !Classified(rule.examples.value)
  {
    var base := BaseValidator.ValidateRule(rule, file, content);
    var m := ExamplesMessage(rule.examples);
    ReportAdded(rule, file, content, m);
    base + (if m.Some? then [ValidationError(file, Some(rule.id), m.value)] else [])
  }

  /** Adding at most one examples message after the base errors. */
  lemma ReportAdded(rule: Rule, file: string, content: string, m: Option<string>)
    requires m.None? || m.value in {MissingExamplesMessage, MissingCodeMessage, UnclassifiedMessage}
    ensures var base := BaseValidator.ValidateRule(rule, file, content);
      var errors := base + (if m.Some? then [ValidationError(file, Some(rule.id), m.value)] else []);
      && (forall x | x in {MissingExamplesMessage, MissingCodeMessage, UnclassifiedMessage} ::
            x in Messages(errors) <==> m == Some(x))
      && errors[..|base|] == base
      && (errors == base <==> m.None?)
      && AllAbout(errors, file, Some(rule.id))
  {
    var base := BaseValidator.ValidateRule(rule, file, content);
    var added := if m.Some? then [ValidationError(file, Some(rule.id), m.value)] else [];
    AppendAfter(base, added);
    AllAboutAppend(base, added, file, Some(rule.id));
    MessagesAppend(base, added);
    BaseHasNoExamplesMessage(rule, file, content);
    assert Messages(added) == if m.Some? then [m.value] else [];
  }

  /** The base errors never carry an examples message. */
  lemma BaseHasNoExamplesMessage(rule: Rule, file: string, content: string)
    ensures forall x | x in {MissingExamplesMessage, MissingCodeMessage, UnclassifiedMessage} ::
      x !in Messages(BaseValidator.ValidateRule(rule, file, content))
  {
    var base := BaseValidator.ValidateRule(rule, file, content);
    SubsequenceMembers(Messages(base),
      [BaseValidator.TitleMessage, BaseValidator.ExplanationMessage, BaseValidator.ImpactMessage(rule.impact)]);
    forall x | x in {MissingExamplesMessage, MissingCodeMessage, UnclassifiedMessage}
      ensures x !in Messages(base)
    {
      NotBaseMessages(rule.impact, x);
    }
  }

  /** A label mentioning "incorrect" also mentions "correct": it counts as
      both a bad and a good example. */
  lemma IncorrectIsAlsoGood(labelText: string)
    requires Contains(LowerStr(labelText), "incorrect")
    ensures IsBadExample(labelText) && IsGoodExample(labelText)
  {
    assert OccursAt("incorrect", "correct", 2);
    ContainsTransitive(LowerStr(labelText), "incorrect", "correct");
    assert "incorrect" in BadLabels && "correct" in GoodLabels;
  }

  /** Label classification ignores ASCII case. */
  lemma ClassificationIgnoresCase(labelText: string)
    ensures IsBadExample(LowerStr(labelText)) == IsBadExample(labelText)
    ensures IsGoodExample(LowerStr(labelText)) == IsGoodExample(labelText)
  {
    LowerStrIdempotent(labelText);
  }

  /** A keyword anywhere in a label, in any letter case, classifies it. */
  lemma KeywordAnywhere(p: string, k: string, q: string)
    requires k in BadLabels || k in GoodLabels
    ensures k in BadLabels ==> IsBadExample(p + k + q)
    ensures k in GoodLabels ==> IsGoodExample(p + k + q)
  {
    LowerStrAppend(p + k, q);
    LowerStrAppend(p, k);
    assert LowerStr(k) == k by {
      assert forall c | c in k :: !IsUpper(c);
    }
    ContainsSelf(k);
    ContainsInContext(LowerStr(p), k, LowerStr(q), k);
  }

  /** "Snippet", a label the tests call unrecognised, names neither kind. */
  lemma SnippetUnrecognised()
    ensures !IsBadExample("Snippet") && !IsGoodExample("Snippet")
  {
    assert LowerStr("Snippet") == "snippet";
    SnippetNotBad("snippet");
    SnippetNotGood("snippet");
  }

  lemma SnippetNotBad(l: string)
    requires l == "snippet"
    ensures forall k | k in BadLabels :: !Contains(l, k)
  {
    MissingCharNotContained(l, "incorrect", 4);
    MissingCharNotContained(l, "wrong", 0);
    MissingCharNotContained(l, "bad", 0);
    MissingCharNotContained(l, "avoid", 0);
  }

  lemma SnippetNotGood(l: string)
    requires l == "snippet"
    ensures forall k | k in GoodLabels :: !Contains(l, k)
  {
    MissingCharNotContained(l, "correct", 0);
    MissingCharNotContained(l, "good", 0);
    MissingCharNotContained(l, "usage", 0);
    MissingCharNotContained(l, "implementation", 1);
    MissingCharNotContained(l, "example", 1);
    MissingCharNotContained(l, "recommended", 0);
  }

  /** "Code", a label the tests call unrecognised, names neither kind. */
  lemma CodeUnrecognised()
    ensures !IsBadExample("Code") && !IsGoodExample("Code")
  {
    var l := LowerStr("Code");
    assert l == "code";
    MissingCharNotContained(l, "incorrect", 0);
    MissingCharNotContained(l, "wrong", 0);
    MissingCharNotContained(l, "bad", 0);
    MissingCharNotContained(l, "avoid", 0);
    MissingCharNotContained(l, "correct", 2);
    MissingCharNotContained(l, "good", 0);
    MissingCharNotContained(l, "usage", 0);
    MissingCharNotContained(l, "implementation", 0);
    MissingCharNotContained(l, "example", 1);
    MissingCharNotContained(l, "recommended", 0);
  }

  /** Examples with only unrecognised labels are reported as unclassified. */
  lemma UnrecognisedLabelsReported()
    ensures ExamplesMessage(Some([
      CodeExample("Snippet", None, "# code", None, None),
      CodeExample("Code", None, "# more code", None, None)])) == Some(UnclassifiedMessage)
  {
    SnippetUnrecognised();
    CodeUnrecognised();
    var ex := [CodeExample("Snippet", None, "# code", None, None), CodeExample("Code", None, "# more code", None, None)];
    assert !IsSpace(ex[0].code[0]);
    assert HasCode(ex[0]);
  }

  /** One kind of example is enough: a lone "Example" or a lone
      "Incorrect" example passes. */
  lemma OneKindSuffices(code: string)
    requires !IsBlank(code)
    ensures ExamplesMessage(Some([CodeExample("Example", None, code, None, None)])) == None
    ensures ExamplesMessage(Some([CodeExample("Incorrect", None, code, None, None)])) == None
  {
    assert LowerStr("Example") == "example";
    ContainsSelf("example");
    assert "example" in GoodLabels;
    assert LowerStr("Incorrect") == "incorrect";
    ContainsSelf("incorrect");
    IncorrectIsAlsoGood("Incorrect");
  }

  /** The check depends only on which examples there are, not on their
      order or repetition. */
  lemma OnlyMembersMatter(ex1: seq<CodeExample>, ex2: seq<CodeExample>)
    requires forall e :: e in ex1 <==> e in ex2
    ensures ExamplesMessage(Some(ex1)) == ExamplesMessage(Some(ex2))
  {
    if |ex1| > 0 {
      assert ex1[0] in ex2;
    }
    if |ex2| > 0 {
      assert ex2[0] in ex1;
    }
  }

  /** Adding an example with blank code to a non-empty list changes nothing. */
  lemma BlankCodeIgnored(ex: seq<CodeExample>, e: CodeExample, k: nat)
    requires |ex| > 0 && k <= |ex| && !HasCode(e)
    ensures ExamplesMessage(Some(ex[..k] + [e] + ex[k..])) == ExamplesMessage(Some(ex))
  {
    var ex2 := ex[..k] + [e] + ex[k..];
    assert ex == ex[..k] + ex[k..];
    assert forall x :: x in ex2 <==> x in ex || x == e;
    assert Classified(ex2) == Classified(ex);
    assert (exists x | x in ex2 :: HasCode(x)) == (exists x | x in ex :: HasCode(x));
  }

  /** Adding examples never turns a passing examples check into a failing one. */
  lemma MoreExamplesStillPass(ex: seq<CodeExample>, more: seq<CodeExample>)
    requires Classified(ex)
    ensures ExamplesMessage(Some(ex)) == None && ExamplesMessage(Some(ex + more)) == None
  {
    var e :| e in ex && HasCode(e) && (IsBadExample(e.labelText) || IsGoodExample(e.labelText));
    assert e in ex + more;
  }

  /** The rule the tests build by default: an "Incorrect" and a "Correct"
      Python example. */
  const DefaultTestRule: Rule :=
    Rule("1.1", Some("Test Rule"), 1, None, "HIGH", None, Some("This is a test explanation."),
      Some([CodeExample("Incorrect", None, "# bad code", Some("python"), None),
            CodeExample("Correct", None, "# good code", Some("python"), None)]),
      None, None)

  /** The rule the tests build by default has no errors. */
  lemma DefaultTestRulePasses()
    ensures ValidateRule(DefaultTestRule, "test.md", "") == []
  {
    DefaultTestRulePassesBase();
    DefaultTestRuleClassified();
  }

  lemma DefaultTestRulePassesBase()
    ensures BaseValidator.ValidateRule(DefaultTestRule, "test.md", "") == []
  {
    var rule := DefaultTestRule;
    assert !BaseValidator.IsBlankField(rule.title) by { assert !IsSpace(rule.title.value[0]); }
    assert !BaseValidator.IsBlankField(rule.explanation) by { assert !IsSpace(rule.explanation.value[0]); }
    assert "HIGH" == BaseValidator.ValidImpacts[1];
  }

  lemma DefaultTestRuleClassified()
    ensures DefaultTestRule.examples.Some? && Classified(DefaultTestRule.examples.value)
  {
    var e := DefaultTestRule.examples.value[0];
    assert HasCode(e) by { assert !IsSpace(e.code[0]); }
    KeywordAnywhere("In", "correct", "");
    assert "In" + "correct" + "" == "Incorrect";
    assert e in DefaultTestRule.examples.value;
  }
}
