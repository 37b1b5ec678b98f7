/**
 * The three prompt templates of map_reduce.py, and the fields Python's
 * formatter finds in each. Their literal text is written as short runs, each
 * checked on its own to hold no brace.
 */
module MapReducePrompts {
  import opened Basics
  import opened Prompt
  import opened MapReduce

  /** The heading before the section text, shared by the three templates. */
  const SectionHeading := Concat(["\n\nMSA Section ", "to Review: \n"])

  /** The rule around the map steps' summaries in the reduce prompt. */
  const Rule := Concat(["\n=========\n"])

  /** The end of the reduce prompt. */
  const Closing := Concat(["\n=========\n", "Final answer:"])

  const IssuePlaceholder := ["[Unacceptable ", "language found]"]
  const ReasonPlaceholder := ["[Reason why the ", "language is ", "unacceptable]"]

  /** The reply format both map prompts spell out, placeholders in brackets. */
  const InstructedFormat := FormatReply(Concat(IssuePlaceholder), Concat(ReasonPlaceholder))

  const NoIssueOffer := ["\n\nIf no issues ", "are found, ", "respond with:\n"]

  lemma HeadingPlain()
    ensures BraceFree(SectionHeading) && BraceFree(Rule)
  {
    ConcatBraceFree(["\n\nMSA Section ", "to Review: \n"]);
    ConcatBraceFree(["\n=========\n"]);
  }

  lemma ClosingPlain()
    ensures BraceFree(Closing)
  {
    ConcatBraceFree(["\n=========\n", "Final answer:"]);
  }

  lemma FormatPlain()
    ensures BraceFree(InstructedFormat)
  {
    ConcatBraceFree(IssuePlaceholder);
    ConcatBraceFree(ReasonPlaceholder);
  }

  lemma NoIssuePlain()
    ensures BraceFree(NoIssueReply + "\n")
  {
    assert BraceFree(NoIssueReply);
  }

  lemma OfferPlain()
    ensures BraceFree(PromptFallback)
  {
    ConcatBraceFree(NoIssueOffer);
    NoIssuePlain();
  }

  /**
   * The format both map prompts spell out is itself a reply the output parser
   * accepts: it yields the two bracketed placeholders, each after its label's space.
   */
  lemma InstructedFormatParses()
    ensures ParseReply(InstructedFormat + "\n")
         == Some(IssueReason(" " + Concat(IssuePlaceholder), " " + Concat(ReasonPlaceholder)))
  {
    ConcatAvoids(IssuePlaceholder, '\n');
    ConcatAvoids(ReasonPlaceholder, '\n');
    ParseFormatted(Concat(IssuePlaceholder), Concat(ReasonPlaceholder), "\n");
  }

  /** `prompt_template`: context, section, the reply format and the no-issue reply. */
  const PromptTemplate := TwoFieldTemplate(PromptIntro, "context", SectionHeading, "msa_section", PromptQuery)

  const PromptIntro := Concat(PromptText1)
  const PromptQuery := PromptRequest + InstructedFormat + PromptFallback
  const PromptRequest := Concat(PromptText2) + Concat(PromptText3) + Concat(PromptText4) + Concat(PromptText5) + Concat(PromptText6)
  const PromptFallback := Concat(NoIssueOffer) + NoIssueReply + "\n"

  const PromptText1: seq<string> := [
    "\nMSA Playbook ", "Context: generally ", "acceptable and ", "unacceptable ", "changes\n"
  ]
  const PromptText2: seq<string> := [
    "\n\nQuery: As a ", "paralegal ", "representing the ", "Service Provider, ", "not the Buyer, ",
    "identify language ", "in the given MSA "
  ]
  const PromptText3: seq<string> := [
    "section that is ", "unacceptable for ", "the Service ", "Provider based on ", "the playbook's ",
    "guidelines.\n", "Understand that "
  ]
  const PromptText4: seq<string> := [
    "this review ", "pertains to a ", "specific segment of ", "the MSA. Therefore, ", "missing clauses ",
    "from the overall "
  ]
  const PromptText5: seq<string> := [
    "MSA should not be ", "considered as ", "issues in this ", "context.\nAnswer ", "with issue and ",
    "reason.\n\nUse this "
  ]
  const PromptText6: seq<string> := ["exact format to ", "answer:\n"]

  lemma PromptText1Plain()
    ensures BraceFree(Concat(PromptText1))
  {
    ConcatBraceFree(PromptText1);
  }

  lemma PromptText2Plain()
    ensures BraceFree(Concat(PromptText2))
  {
    ConcatBraceFree(PromptText2);
  }

  lemma PromptText3Plain()
    ensures BraceFree(Concat(PromptText3))
  {
    ConcatBraceFree(PromptText3);
  }

  lemma PromptText4Plain()
    ensures BraceFree(Concat(PromptText4))
  {
    ConcatBraceFree(PromptText4);
  }

  lemma PromptText5Plain()
    ensures BraceFree(Concat(PromptText5))
  {
    ConcatBraceFree(PromptText5);
  }

  lemma PromptText6Plain()
    ensures BraceFree(Concat(PromptText6))
  {
    ConcatBraceFree(PromptText6);
  }

  lemma PromptRequestPlain()
    ensures BraceFree(PromptRequest)
  {
    PromptText2Plain();
    PromptText3Plain();
    PromptText4Plain();
    PromptText5Plain();
    PromptText6Plain();
  }

  lemma PromptQueryPlain()
    ensures BraceFree(PromptQuery)
  {
    PromptRequestPlain();
    FormatPlain();
    OfferPlain();
  }

  /** `prompt_template` has exactly the fields `context` and `msa_section`, its `input_variables`. */
  lemma PromptFields()
    ensures FieldNames(Source(PromptTemplate)) == Some({"context", "msa_section"})
  {
    HeadingPlain();
    PromptText1Plain();
    PromptQueryPlain();
    ContextSectionNames(PromptIntro, SectionHeading, PromptQuery);
  }

  /** `question_prompt_template`: the prompt of the map step. */
  const QuestionTemplate := TwoFieldTemplate(QuestionIntro, "context", SectionHeading, "msa_section", QuestionQuery)

  const QuestionIntro := Concat(QuestionText1)
  const QuestionQuery := Concat(QuestionText2) + Concat(QuestionText3) + Concat(QuestionText4) + InstructedFormat + "\n"

  const QuestionText1: seq<string> := [
    "Portion of MSA ", "Playbook (generally ", "acceptable and ", "unacceptable ", "changes):\n"
  ]
  const QuestionText2: seq<string> := [
    "\n\nQuery: As a ", "paralegal ", "representing the ", "Service Provider, ", "identify language ",
    "in the given MSA ", "section that is "
  ]
  const QuestionText3: seq<string> := [
    "unacceptable \nfor ", "the Service ", "Provider based on ", "the playbook's ", "guidelines.\nIf no ",
    "issues are found, "
  ]
  const QuestionText4: seq<string> := ["don't make up any.\n\n", "Use this exact ", "format to answer:\n"]

  lemma QuestionText1Plain()
    ensures BraceFree(Concat(QuestionText1))
  {
    ConcatBraceFree(QuestionText1);
  }

  lemma QuestionText2Plain()
    ensures BraceFree(Concat(QuestionText2))
  {
    ConcatBraceFree(QuestionText2);
  }

  lemma QuestionText3Plain()
    ensures BraceFree(Concat(QuestionText3))
  {
    ConcatBraceFree(QuestionText3);
  }

  lemma QuestionText4Plain()
    ensures BraceFree(Concat(QuestionText4))
  {
    ConcatBraceFree(QuestionText4);
  }

  lemma QuestionQueryPlain()
    ensures BraceFree(QuestionQuery)
  {
    QuestionText2Plain();
    QuestionText3Plain();
    QuestionText4Plain();
    FormatPlain();
  }

  /** `question_prompt_template` has exactly the fields `context` and `msa_section`, its `input_variables`. */
  lemma QuestionFields()
    ensures FieldNames(Source(QuestionTemplate)) == Some({"context", "msa_section"})
  {
    HeadingPlain();
    QuestionText1Plain();
    QuestionQueryPlain();
    ContextSectionNames(QuestionIntro, SectionHeading, QuestionQuery);
  }

  /** `combine_prompt_template`: the prompt of the reduce step, over the map steps' `summaries`. */
  const CombineTemplate := TwoFieldTemplate(CombineIntro, "msa_section", Rule, "summaries", Closing)

  const CombineIntro := Concat(CombineText1) + Concat(CombineText2) + Concat(CombineText3) + Concat(CombineText4) + SectionHeading

  const CombineText1: seq<string> := [
    "\nGiven the ", "following extracted ", "parts of a MSA ", "playbook and a MSA ", "draft section, ",
    "create a final "
  ]
  const CombineText2: seq<string> := [
    "answer that lists ", "up to 5 \nunique ", "issues with the MSA ", "section, and why ",
    "the language is ", "unacceptable.\nList "
  ]
  const CombineText3: seq<string> := [
    "in order of issue ", "severity, and be ", "concise. If any ", "issues are similar, ",
    "combine them into a "
  ]
  const CombineText4: seq<string> := ["single issue.\nDon't ", "make up more issues ", "if less than 5 are ", "found."]

  lemma CombineText1Plain()
    ensures BraceFree(Concat(CombineText1))
  {
    ConcatBraceFree(CombineText1);
  }

  lemma CombineText2Plain()
    ensures BraceFree(Concat(CombineText2))
  {
    ConcatBraceFree(CombineText2);
  }

  lemma CombineText3Plain()
    ensures BraceFree(Concat(CombineText3))
  {
    ConcatBraceFree(CombineText3);
  }

  lemma CombineText4Plain()
    ensures BraceFree(Concat(CombineText4))
  {
    ConcatBraceFree(CombineText4);
  }

  lemma CombineIntroPlain()
    ensures BraceFree(CombineIntro)
  {
    HeadingPlain();
    CombineText1Plain();
    CombineText2Plain();
    CombineText3Plain();
    CombineText4Plain();
  }

  /** `combine_prompt_template` has exactly the fields `summaries` and `msa_section`, its `input_variables`. */
  lemma CombineFields()
    ensures FieldNames(Source(CombineTemplate)) == Some({"msa_section", "summaries"})
  {
    HeadingPlain();
    CombineIntroPlain();
    ClosingPlain();
    TwoFieldNames(CombineIntro, "msa_section", Rule, "summaries", Closing);
  }
}
