/** The records the validators exchange (types.ts). Fields that a parsed rule
    file may lack at run time, although the TypeScript type calls them
    required, are `Option`s: the tests hand the validators an undefined title
    and undefined examples. The impact level is a plain string for the same
    reason; which strings are valid is the base validator's business. */
module Types {
  import opened Wrappers

  /** One validation failure. `ruleId` is absent when the failure happened
      before a rule identifier was known. */
  datatype ValidationError = ValidationError(file: string, ruleId: Option<string>, message: string)

  /** A labelled code example. The label field is `labelText` because
      `label` is a Dafny keyword. */
  datatype CodeExample = CodeExample(
    labelText: string,
    description: Option<string>,
    code: string,
    language: Option<string>,
    additionalText: Option<string>)

  datatype Rule = Rule(
    id: string,
    title: Option<string>,
    section: int,
    subsection: Option<int>,
    impact: string,
    impactDescription: Option<string>,
    explanation: Option<string>,
    examples: Option<seq<CodeExample>>,
    references: Option<seq<string>>,
    tags: Option<seq<string>>)

  /** The messages of a list of errors, in order. */
  function Messages(errors: seq<ValidationError>): (ms: seq<string>)
    ensures |ms| == |errors|
    ensures forall i | 0 <= i < |errors| :: ms[i] == errors[i].message
  {
    seq(|errors|, i requires 0 <= i < |errors| => errors[i].message)
  }

  /** Every error names `file` and carries `ruleId`. */
  predicate AllAbout(errors: seq<ValidationError>, file: string, ruleId: Option<string>) {
    forall i | 0 <= i < |errors| :: errors[i].file == file && errors[i].ruleId == ruleId
  }

  /** The parts of a concatenation. */
  lemma AppendAfter<T>(base: seq<T>, added: seq<T>)
    ensures (base + added)[..|base|] == base && (base + added)[|base|..] == added
    ensures base + added == base <==> added == []
  {
    if base + added == base {
      assert |added| == 0;
    }
  }

  /** Errors about one rule, appended to more errors about it, are about it. */
  lemma AllAboutAppend(a: seq<ValidationError>, b: seq<ValidationError>, file: string, ruleId: Option<string>)
    requires AllAbout(a, file, ruleId) && AllAbout(b, file, ruleId)
    ensures AllAbout(a + b, file, ruleId)
  {
  }

  lemma MessagesAppend(a: seq<ValidationError>, b: seq<ValidationError>)
    ensures Messages(a + b) == Messages(a) + Messages(b)
  {
  }
}
