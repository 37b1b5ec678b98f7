/**
 * test_app.py: a map-rerank chain whose parser keeps the label of the first
 * matched line, the prompt it is given, and the page that writes the chain's
 * whole result unfiltered.
 */
module TestApp {
  import opened Basics
  import opened Text
  import opened Review
  import opened Prompt

  // ---------------------------------------------------------------------------
  // The output parser: re.search(r"(.*?)\nReason: (.*?)\nScore: (.*)", reply)
  // ---------------------------------------------------------------------------

  /** Three consecutive lines the pattern can match: any line, then a `Reason: ` line and a `Score: ` line. */
  predicate Qualifies(l0: string, l1: string, l2: string)
  {
    StartsWith(l1, "Reason: ") && StartsWith(l2, "Score: ")
  }

  /** The three groups read off qualifying lines: the whole first line, and the rest after the two labels. */
  function Captures(l0: string, l1: string, l2: string): Step
    requires Qualifies(l0, l1, l2)
  {
    Step(l0, l1[8..], l2[7..])
  }

  /** The first qualifying line triple, scanning down the lines. */
  function Scan(ls: seq<string>): Option<Step>
    decreases |ls|
  {
    if |ls| < 3 then None
    else if Qualifies(ls[0], ls[1], ls[2]) then Some(Captures(ls[0], ls[1], ls[2]))
    else Scan(ls[1..])
  }

  /** The `RegexParser` of test_app.py: `None` where it raises `ValueError`. */
  function ParseReply(reply: string): Option<Step>
  {
    Scan(Lines(reply))
  }

  predicate QualifiesAt(ls: seq<string>, k: nat)
    requires k + 2 < |ls|
  {
    Qualifies(ls[k], ls[k + 1], ls[k + 2])
  }

  // ---------------------------------------------------------------------------
  // The regular expression's own meaning, independent of lines
  // ---------------------------------------------------------------------------

  /**
   * `t` is matched from its start with groups `a`, `b`, `c` and unmatched
   * remainder `y`. `.` matches anything but `'\n'`.
   */
  ghost predicate RegexMatch(t: string, a: string, b: string, c: string, y: string)
  {
    && '\n' !in a && '\n' !in b && '\n' !in c
    && t == a + "\nReason: " + b + "\nScore: " + c + y
  }

  /** The pattern matches at the start of `t` in some way. */
  ghost predicate MatchesHere(t: string)
  {
    exists a, b, c, y :: RegexMatch(t, a, b, c, y)
  }

  /** The matched text, regrouped as three lines. */
  lemma MatchShape(a: string, b: string, c: string, y: string)
    ensures a + "\nReason: " + b + "\nScore: " + c + y
         == a + ['\n'] + (("Reason: " + b) + ['\n'] + (("Score: " + c) + y))
  {
    assert "\nReason: " == ['\n'] + "Reason: ";
    assert "\nScore: " == ['\n'] + "Score: ";
  }

  /** The lines of a matched text: the first group's line, the `Reason: ` line, then the `Score: ` line running into the rest. */
  lemma MatchLines(t: string, a: string, b: string, c: string, y: string)
    requires RegexMatch(t, a, b, c, y)
    ensures Lines(t) == [a, "Reason: " + b, "Score: " + c + Lines(y)[0]] + Lines(y)[1..]
  {
    MatchShape(a, b, c, y);
    assert '\n' !in "Reason: " + b;
    assert '\n' !in "Score: " + c;
    SplitThree(a, "Reason: " + b, "Score: " + c, y, '\n');
  }

  /** A match starting at `q` in the first line pins down the first three lines. */
  lemma FirstLineMatch(s: string, q: nat, a: string, b: string, c: string, y: string)
    requires q <= |Lines(s)[0]|
    ensures RegexMatch(s[q..], a, b, c, y) ==>
      var ls := Lines(s);
      && |ls| >= 3 && Qualifies(ls[0], ls[1], ls[2])
      && ls[0] == s[..q] + a && ls[1][8..] == b && ls[2][7..] == c + Lines(y)[0]
  {
    if RegexMatch(s[q..], a, b, c, y) {
      var ls := Lines(s);
      FirstPiecePrefix(s, q, '\n');
      MatchLines(s[q..], a, b, c, y);
      var l', head := Lines(s[q..]), [a, "Reason: " + b, "Score: " + c + Lines(y)[0]];
      assert l' == head + Lines(y)[1..];
      assert l'[0] == head[0] && l'[1] == head[1] && l'[2] == head[2];
      assert ls[0] == s[..q] + l'[0] && ls[1] == l'[1] && ls[2] == l'[2];
      Assoc("Score: ", c, Lines(y)[0]);
      TaggedLine(ls[1], "Reason: ", b);
      TaggedLine(ls[2], "Score: ", c + Lines(y)[0]);
    }
  }

  /** Qualifying first lines give a match at position 0 with the captures the parser returns. */
  lemma FirstLineCaptures(s: string) returns (y: string)
    requires |Lines(s)| >= 3 && QualifiesAt(Lines(s), 0)
    ensures y == [] || y[0] == '\n'
    ensures var ls := Lines(s); RegexMatch(s, ls[0], ls[1][8..], ls[2][7..], y)
  {
    var ls := Lines(s);
    y := SplitFirstThree(s, '\n');
    var a, b, c := ls[0], ls[1][8..], ls[2][7..];
    StartSplit(ls[1], "Reason: ");
    StartSplit(ls[2], "Score: ");
    assert '\n' !in ls[0] && '\n' !in ls[1] && '\n' !in ls[2];
    assert '\n' !in b && '\n' !in c;
    MatchShape(a, b, c, y);
  }

  /** A first line that does not begin a qualifying triple holds no match start. */
  lemma NoMatchInFirstLine(s: string, q: nat)
    requires q <= |Lines(s)[0]|
    requires |Lines(s)| < 3 || !QualifiesAt(Lines(s), 0)
    ensures !MatchesHere(s[q..])
  {
    forall a, b, c, y ensures !RegexMatch(s[q..], a, b, c, y) {
      FirstLineMatch(s, q, a, b, c, y);
    }
  }

  /** Qualifying first lines: the match at 0 with the parser's captures is the one Python picks at 0. */
  lemma FirstLineLeftmost(s: string) returns (y: string)
    requires |Lines(s)| >= 3 && QualifiesAt(Lines(s), 0)
    ensures var ls := Lines(s); var r := Captures(ls[0], ls[1], ls[2]);
      && RegexMatch(s, r.answer, r.reason, r.score, y)
      && (y == [] || y[0] == '\n')
      && forall a', b', c', y' :: RegexMatch(s, a', b', c', y') ==>
           a' == r.answer && b' == r.reason && c' <= r.score
  {
    var ls := Lines(s);
    y := FirstLineCaptures(s);
    forall a', b', c', y' | RegexMatch(s, a', b', c', y')
      ensures a' == ls[0] && b' == ls[1][8..] && c' <= ls[2][7..]
    {
      assert s[0..] == s && s[..0] == [];
      FirstLineMatch(s, 0, a', b', c', y');
    }
  }

  /** A reply whose first three lines do not qualify parses as the text after its first line. */
  lemma SkipFirstLine(s: string) returns (s': string)
    requires ParseReply(s).Some? && !QualifiesAt(Lines(s), 0)
    ensures |Lines(s)[0]| < |s| && s' == s[|Lines(s)[0]| + 1..] && s[|Lines(s)[0]|] == '\n'
    ensures ParseReply(s') == ParseReply(s)
  {
    s' := SplitFirst(s, '\n');
    assert s[|Lines(s)[0]|] == (Lines(s)[0] + ['\n'] + s')[|Lines(s)[0]|];
  }

  /** No match starts in a non-qualifying first line, nor before `p'` in the text after it. */
  lemma NoMatchBefore(s: string, s': string, p': nat)
    requires |Lines(s)| < 3 || !QualifiesAt(Lines(s), 0)
    requires |Lines(s)[0]| < |s| && s' == s[|Lines(s)[0]| + 1..] && p' <= |s'|
    requires forall q :: 0 <= q < p' ==> !MatchesHere(s'[q..])
    ensures forall q :: 0 <= q < |Lines(s)[0]| + 1 + p' ==> !MatchesHere(s[q..])
  {
    var i := |Lines(s)[0]|;
    forall q | 0 <= q < i + 1 + p' ensures !MatchesHere(s[q..]) {
      if q <= i {
        NoMatchInFirstLine(s, q);
      } else {
        assert s[q..] == s'[q - i - 1..];
      }
    }
  }

  /**
   * `re.search` semantics: when the parser succeeds, its fields are the groups
   * of the leftmost match; the greedy last group is the longest.
   */
  lemma {:induction false} ParseIsLeftmostMatch(s: string) returns (p: nat, y: string)
    requires ParseReply(s).Some?
    ensures p <= |s|
    ensures var r := ParseReply(s).value; RegexMatch(s[p..], r.answer, r.reason, r.score, y)
    ensures y == [] || y[0] == '\n'
    ensures forall q :: 0 <= q < p ==> !MatchesHere(s[q..])
    ensures forall a', b', c', y' :: RegexMatch(s[p..], a', b', c', y') ==>
      var r := ParseReply(s).value;
      a' == r.answer && b' == r.reason && c' <= r.score
    decreases |s|
  {
    var ls := Lines(s);
    if QualifiesAt(ls, 0) {
      y := FirstLineLeftmost(s);
      p := 0;
      assert s[p..] == s;
    } else {
      var i := |ls[0]|;
      var s' := SkipFirstLine(s);
      var p', y0 := ParseIsLeftmostMatch(s');
      p, y := i + 1 + p', y0;
      assert s[p..] == s'[p'..];
      NoMatchBefore(s, s', p');
    }
  }

  /** When the parser fails, the pattern matches nowhere: Python raises `ValueError`. */
  lemma {:induction false} UnparsedHasNoMatch(s: string)
    requires ParseReply(s).None?
    ensures forall q :: 0 <= q <= |s| ==> !MatchesHere(s[q..])
    decreases |s|
  {
    var ls := Lines(s);
    SplitUnfold(s, '\n');
    forall q | 0 <= q <= |s| ensures !MatchesHere(s[q..]) {
      if q <= |ls[0]| {
        NoMatchInFirstLine(s, q);
      } else {
        var i := |ls[0]|;
        var s' := SplitFirst(s, '\n');
        assert s' == s[i + 1..];
        UnparsedHasNoMatch(s');
        assert s[q..] == s'[q - i - 1..];
      }
    }
  }

  /** The parser succeeds exactly when the regular expression matches somewhere in the reply. */
  lemma ParsesIffRegexMatches(s: string)
    ensures ParseReply(s).Some? <==> exists q :: 0 <= q <= |s| && MatchesHere(s[q..])
  {
    if ParseReply(s).Some? {
      var p, y := ParseIsLeftmostMatch(s);
      var r := ParseReply(s).value;
      assert RegexMatch(s[p..], r.answer, r.reason, r.score, y);
      assert MatchesHere(s[p..]);
    } else {
      UnparsedHasNoMatch(s);
    }
  }

  /** The lazy first group never starts inside a line: the answer is always one whole line of the reply. */
  lemma {:induction false} ScanAnswerIsLine(ls: seq<string>)
    ensures Scan(ls).Some? ==> Scan(ls).value.answer in ls
    decreases |ls|
  {
    if |ls| >= 3 && !QualifiesAt(ls, 0) {
      ScanAnswerIsLine(ls[1..]);
    }
  }

  lemma AnswerIsWholeLine(s: string)
    requires ParseReply(s).Some?
    ensures ParseReply(s).value.answer in Lines(s)
  {
    ScanAnswerIsLine(Lines(s));
  }

  // ---------------------------------------------------------------------------
  // The parser in terms of lines
  // ---------------------------------------------------------------------------

  /** The parser reads the first qualifying line triple, whatever comes before and after it. */
  lemma {:induction false} ScanFindsFirst(ls: seq<string>, k: nat)
    requires k + 2 < |ls| && QualifiesAt(ls, k)
    requires forall j :: 0 <= j < k ==> !QualifiesAt(ls, j)
    ensures Scan(ls) == Some(Captures(ls[k], ls[k + 1], ls[k + 2]))
    decreases k
  {
    if k > 0 {
      assert !QualifiesAt(ls, 0);
      forall j | 0 <= j < k - 1 ensures !QualifiesAt(ls[1..], j) {
        assert !QualifiesAt(ls, j + 1);
      }
      ScanFindsFirst(ls[1..], k - 1);
    }
  }

  /** The parser fails exactly when no line is followed by a `Reason: ` line and a `Score: ` line. */
  lemma {:induction false} ScanFailsIffNoTriple(ls: seq<string>)
    ensures Scan(ls).None? <==> forall j :: 0 <= j && j + 2 < |ls| ==> !QualifiesAt(ls, j)
    decreases |ls|
  {
    if |ls| >= 3 && !QualifiesAt(ls, 0) {
      ScanFailsIffNoTriple(ls[1..]);
      forall j | 0 <= j && j + 3 < |ls| ensures QualifiesAt(ls[1..], j) == QualifiesAt(ls, j + 1) {
      }
      if Scan(ls).None? {
        forall j | 0 <= j && j + 2 < |ls| ensures !QualifiesAt(ls, j) {
          if j > 0 {
            assert QualifiesAt(ls[1..], j - 1) == QualifiesAt(ls, j);
          }
        }
      }
    }
  }

  // ---------------------------------------------------------------------------
  // The reply format the prompt asks for
  // ---------------------------------------------------------------------------

  /** A reply in the prompt's format: a labelled issue line, then `Reason: ` and `Score: ` lines. */
  function FormatReply(issueLine: string, reason: string, score: string): string
  {
    issueLine + "\nReason: " + reason + "\nScore: " + score
  }

  /** The reply the prompt asks for when no issue is found. */
  const NoIssueReply := "Issues: None\nReason: None\nScore: 0"

  /**
   * Round trip: the fields of a step, written one per line in the prompt's
   * format, parse back to that step, whatever lines follow; the first field
   * keeps its line's label.
   */
  lemma ParseFormatted(step: Step, tail: string)
    requires '\n' !in step.answer && '\n' !in step.reason && '\n' !in step.score
    requires tail == [] || tail[0] == '\n'
    ensures ParseReply(FormatReply(step.answer, step.reason, step.score) + tail) == Some(step)
  {
    var t := FormatReply(step.answer, step.reason, step.score) + tail;
    assert RegexMatch(t, step.answer, step.reason, step.score, tail);
    MatchLines(t, step.answer, step.reason, step.score, tail);
    var ls := Lines(t);
    assert Lines(tail)[0] == [] by {
      SplitUnfold(tail, '\n');
    }
    TaggedLine(ls[1], "Reason: ", step.reason);
    TaggedLine(ls[2], "Score: ", step.score);
    assert QualifiesAt(ls, 0);
  }

  lemma NoIssueReplyIsFormatted()
    ensures NoIssueReply == FormatReply("Issues: None", "None", "0") + []
  {
  }

  /**
   * The no-issue reply parses with its label kept in the answer and the score
   * exactly the text `"0"`: a `!= "0"` test would recognise it.
   */
  lemma NoIssueReplyParses()
    ensures ParseReply(NoIssueReply) == Some(Step("Issues: None", "None", "0"))
  {
    NoIssueReplyIsFormatted();
    ParseFormatted(Step("Issues: None", "None", "0"), []);
  }

  // ---------------------------------------------------------------------------
  // The templates
  // ---------------------------------------------------------------------------

  /**
   * `template`: the playbook context, a request, then the section. No live
   * `PromptTemplate` uses it; only commented-out code gives it input variables.
   */
  const SimpleTemplate := TwoFieldTemplate([], "context", SimpleRequest, "msa_section", "\n")

  const SimpleRequest := Concat(["\nList any problems ", "with this MSA ", "section:\n"])

  lemma SimpleRequestPlain()
    ensures BraceFree(SimpleRequest)
  {
    ConcatBraceFree(["\nList any problems ", "with this MSA ", "section:\n"]);
  }

  /** `template` has exactly the fields `context` and `msa_section`. */
  lemma SimpleFields()
    ensures FieldNames(Source(SimpleTemplate)) == Some({"context", "msa_section"})
  {
    SimpleRequestPlain();
    assert BraceFree([]) && BraceFree("\n");
    ContextSectionNames([], SimpleRequest, "\n");
  }

  /** `prompt_template`: instructions and the reply format, the context between rules, then the section. */
  const PromptTemplate := TwoFieldTemplate(PromptIntro, "context", PromptMiddle, "msa_section", PromptClosing)

  const PromptIntro := Concat(PromptText1) + Concat(PromptText2) + Concat(PromptText3) + Concat(PromptText4)
    + Concat(PromptText5)
  const PromptMiddle := Concat(["\n---------\n", "MSA Section: "])
  const PromptClosing := Concat(["\nAny unacceptable ", "language found, and ", "why it is ", "unacceptable:"])

  const PromptText1: seq<string> := [
    "Use the following ", "pieces of context ", "to identify ", "unacceptable ", "language with a ",
    "section of an MSA, ", "and why it is "
  ]
  const PromptText2: seq<string> := [
    "unacceptable.\nIn ", "addition to listing ", "the issue and the ", "reason, also return ",
    "a score of you ", "confident you are "
  ]
  const PromptText3: seq<string> := [
    "that issues are ", "present.\nIf no ", "issue found, answer ", "\"None\" for issues ",
    "and reason, and 0 ", "for score.\nUse the "
  ]
  const PromptText4: seq<string> := [
    "exact format below ", "to answer:\n\nIssues: ", "[answer here, ", "\"None\" if none]\n",
    "Reason: [reason for ", "answer, \"None\" if "
  ]
  const PromptText5: seq<string> := [
    "none]\nScore: [score ", "between 0 and 100]\n\n", "Begin!\n\nContext:\n", "---------\n"
  ]

  lemma PromptText1Plain()
    ensures BraceFree(Concat(PromptText1))
  {
    ConcatBraceFree(PromptText1);
  }

  lemma PromptText2Plain()
    ensures BraceFree(Concat(PromptText2))
  {
    ConcatBraceFree(PromptText2);
  }

  lemma PromptText3Plain()
    ensures BraceFree(Concat(PromptText3))
  {
    ConcatBraceFree(PromptText3);
  }

  lemma PromptText4Plain()
    ensures BraceFree(Concat(PromptText4))
  {
    ConcatBraceFree(PromptText4);
  }

  lemma PromptText5Plain()
    ensures BraceFree(Concat(PromptText5))
  {
    ConcatBraceFree(PromptText5);
  }

  lemma PromptIntroPlain()
    ensures BraceFree(PromptIntro)
  {
    PromptText1Plain();
    PromptText2Plain();
    PromptText3Plain();
    PromptText4Plain();
    PromptText5Plain();
  }

  lemma PromptMiddlePlain()
    ensures BraceFree(PromptMiddle)
  {
    ConcatBraceFree(["\n---------\n", "MSA Section: "]);
  }

  lemma PromptClosingPlain()
    ensures BraceFree(PromptClosing)
  {
    ConcatBraceFree(["\nAny unacceptable ", "language found, and ", "why it is ", "unacceptable:"]);
  }

  /** `prompt_template` has exactly the fields `context` and `msa_section`, its `input_variables`. */
  lemma PromptFields()
    ensures FieldNames(Source(PromptTemplate)) == Some({"context", "msa_section"})
  {
    PromptIntroPlain();
    PromptMiddlePlain();
    PromptClosingPlain();
    ContextSectionNames(PromptIntro, PromptMiddle, PromptClosing);
  }

  // ---------------------------------------------------------------------------
  // What the script writes for one chain call
  // ---------------------------------------------------------------------------

  /** The `try` block of test_app.py: the whole chain result, or the exception, written once. */
  function TestView(result: Outcome<ChainAnswer>): (out: seq<Event>)
    ensures |out| == 1
  {
    match result
    case Raised(e) => [ErrorText(e)]
    case Answered(answer) => [RerankValue(answer)]
  }

  /**
   * The page holds the chain's whole result, every step included whatever its
   * score, or the exception itself; it never writes the failure message, not
   * even for a ValueError.
   */
  lemma TestViewWritesAll(result: Outcome<ChainAnswer>)
    ensures Text(ParseFailureMessage) !in TestView(result)
    ensures result.Answered? ==>
      exists ev :: ev in TestView(result) && ev.RerankValue? && ev.answer == result.value
    ensures result.Raised? ==> TestView(result) == [ErrorText(result.error)]
  {
    if result.Answered? {
      assert TestView(result)[0] in TestView(result);
    }
  }
}
