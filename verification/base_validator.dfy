/** The base validator (validators/base.ts): the checks every rule must pass
    whatever skill it belongs to. Three independent checks, in this order,
    none of which stops the others: the title is present and not blank, the
    explanation is present and not blank, and the impact is exactly one of
    the six levels. The raw file content is accepted and ignored. */
module BaseValidator {
  import opened Wrappers
  import opened Text
  import opened Types
  import opened Checks

  const Name: string := "base"

  /** `VALID_IMPACTS`, in declaration order, highest impact first. */
  const ValidImpacts: seq<string> := ["CRITICAL", "HIGH", "MEDIUM-HIGH", "MEDIUM", "LOW-MEDIUM", "LOW"]

  const TitleMessage: string := "Missing or empty title"

  const ExplanationMessage: string := "Missing or empty explanation"

  function ImpactMessage(impact: string): string {
    "Invalid impact level: " + impact + ". Must be one of: " + Join(ValidImpacts, ", ")
  }

  /** `!field || field.trim().length === 0` */
  predicate IsMissingOrEmpty(field: Option<string>) {
    field.None? || |Trim(field.value)| == 0
  }

  /** Absent, or nothing but white space. */
  predicate IsBlankField(field: Option<string>) {
    field.None? || IsBlank(field.value)
  }

  function BaseChecks(rule: Rule): seq<Check> {
    [ Check(!IsMissingOrEmpty(rule.title), TitleMessage),
      Check(!IsMissingOrEmpty(rule.explanation), ExplanationMessage),
      Check(rule.impact in ValidImpacts, ImpactMessage(rule.impact)) ]
  }

  lemma MessagesDiffer(impact: string)
    ensures TitleMessage != ExplanationMessage
    ensures ImpactMessage(impact) != TitleMessage
    ensures ImpactMessage(impact) != ExplanationMessage
  {
    var prefix := "Invalid impact level: ";
    var rest := impact + ". Must be one of: " + Join(ValidImpacts, ", ");
    assert ImpactMessage(impact) == prefix + rest;
    assert (prefix + rest)[0] == prefix[0] == 'I';
    assert TitleMessage[0] == 'M' && ExplanationMessage[0] == 'M';
    assert |TitleMessage| == 22 && |ExplanationMessage| == 28;
  }

  /** Which messages the three checks report. */
  lemma BaseChecksReport(rule: Rule, file: string)
    ensures var errors := Collect(BaseChecks(rule), file, Some(rule.id));
      && (TitleMessage in Messages(errors) <==> IsBlankField(rule.title))
      && (ExplanationMessage in Messages(errors) <==> IsBlankField(rule.explanation))
      && (ImpactMessage(rule.impact) in Messages(errors) <==> rule.impact !in ValidImpacts)
      && IsSubsequence(Messages(errors), [TitleMessage, ExplanationMessage, ImpactMessage(rule.impact)])
  {
    var checks := BaseChecks(rule);
    MessagesDiffer(rule.impact);
    MissingOrEmptyIsBlank(rule.title);
    MissingOrEmptyIsBlank(rule.explanation);
    ThreeChecksReport(checks, file, Some(rule.id));
  }

  /** The trimmed field is empty exactly when the field is all white space. */
  lemma MissingOrEmptyIsBlank(field: Option<string>)
    ensures IsMissingOrEmpty(field) == IsBlankField(field)
  {
  }

  /** `baseValidator.validateRule(rule, file, content)`. */
  function ValidateRule(rule: Rule, file: string, content: string): (errors: seq<ValidationError>)
    ensures AllAbout(errors, file, Some(rule.id))
    ensures TitleMessage in Messages(errors) <==> IsBlankField(rule.title)
    ensures ExplanationMessage in Messages(errors) <==> IsBlankField(rule.explanation)
    ensures ImpactMessage(rule.impact) in Messages(errors) <==> rule.impact !in ValidImpacts
    ensures IsSubsequence(Messages(errors), [TitleMessage, ExplanationMessage, ImpactMessage(rule.impact)])
    ensures errors == [] <==>
      !IsBlankField(rule.title) && !IsBlankField(rule.explanation) && rule.impact in ValidImpacts
    ensures |errors| <= 3
    ensures IsBlankField(rule.title) && IsBlankField(rule.explanation) && rule.impact !in ValidImpacts
      ==> |errors| == 3
  {
    BaseChecksReport(rule, file);
    Collect(BaseChecks(rule), file, Some(rule.id))
  }

  /** `runBaseValidations`: the same errors as the base validator, on every input. */
  function RunBaseValidations(rule: Rule, file: string, content: string): (errors: seq<ValidationError>)
    ensures errors == ValidateRule(rule, file, content)
  {
    ValidateRule(rule, file, content)
  }

  /** The base errors never depend on the raw content. */
  lemma IgnoresContent(rule: Rule, file: string, content1: string, content2: string)
    ensures ValidateRule(rule, file, content1) == ValidateRule(rule, file, content2)
  {
  }

  /** The six levels joined by ", ", in declaration order. */
  lemma ImpactLevelsJoined()
    ensures Join(ValidImpacts, ", ") ==
      "CRITICAL" + ", " + ("HIGH" + ", " + ("MEDIUM-HIGH" + ", " + ("MEDIUM" + ", " + ("LOW-MEDIUM" + ", " + "LOW"))))
  {
    var levels := ValidImpacts;
    assert levels[1..] == ["HIGH", "MEDIUM-HIGH", "MEDIUM", "LOW-MEDIUM", "LOW"];
    assert levels[1..][1..] == ["MEDIUM-HIGH", "MEDIUM", "LOW-MEDIUM", "LOW"];
    assert levels[1..][1..][1..] == ["MEDIUM", "LOW-MEDIUM", "LOW"];
    assert levels[1..][1..][1..][1..] == ["LOW-MEDIUM", "LOW"];
    assert levels[1..][1..][1..][1..][1..] == ["LOW"];
  }

  /** The impact message names the rejected value and lists the six levels,
      joined by ", ", in declaration order. */
  lemma ImpactMessageText(impact: string)
    ensures ImpactMessage(impact) ==
      "Invalid impact level: " + impact + ". Must be one of: " +
      ("CRITICAL" + ", " + ("HIGH" + ", " + ("MEDIUM-HIGH" + ", " + ("MEDIUM" + ", " + ("LOW-MEDIUM" + ", " + "LOW")))))
    ensures Contains(ImpactMessage(impact), impact)
  {
    ImpactLevelsJoined();
    var prefix := "Invalid impact level: ";
    var m := ImpactMessage(impact);
    assert m[|prefix|..|prefix| + |impact|] == impact;
    assert OccursAt(m, impact, |prefix|);
  }

  /** Impact levels are compared case-sensitively: "high" is rejected. */
  lemma LowerCaseImpactRejected()
    ensures "high" !in ValidImpacts
    ensures "HIGH" in ValidImpacts
  {
    assert "high"[0] != "HIGH"[0];
  }
}
