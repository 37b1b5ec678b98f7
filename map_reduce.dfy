/**
 * map_reduce.py: the two-field reply parser, the three prompt templates and
 * their fields, and what the script writes for a map-reduce chain call.
 */
module MapReduce {
  import opened Basics
  import opened Text
  import opened Review
  import opened Prompt

  /** The two fields the parser reads off a reply: its `answer` and `reason` keys. */
  datatype IssueReason = IssueReason(answer: string, reason: string)

  // ---------------------------------------------------------------------------
  // The output parser: re.search(r".*?Issue:(.*)\nReason:(.*)", reply)
  // ---------------------------------------------------------------------------

  /** Two consecutive lines the pattern can match: an `Issue:` anywhere in the first, then a `Reason:` line. */
  predicate Qualifies(l0: string, l1: string)
  {
    Find(l0, "Issue:").Some? && StartsWith(l1, "Reason:")
  }

  function Captures(l0: string, l1: string): IssueReason
    requires Qualifies(l0, l1)
  {
    IssueReason(l0[Find(l0, "Issue:").value + 6..], l1[7..])
  }

  /** The first qualifying line pair, scanning down the lines. */
  function Scan(ls: seq<string>): Option<IssueReason>
    decreases |ls|
  {
    if |ls| < 2 then None
    else if Qualifies(ls[0], ls[1]) then Some(Captures(ls[0], ls[1]))
    else Scan(ls[1..])
  }

  /** The `RegexParser` of map_reduce.py: `None` where it raises `ValueError`. */
  function ParseReply(reply: string): Option<IssueReason>
  {
    Scan(Lines(reply))
  }

  predicate QualifiesAt(ls: seq<string>, k: nat)
    requires k + 1 < |ls|
  {
    Qualifies(ls[k], ls[k + 1])
  }

  // ---------------------------------------------------------------------------
  // The regular expression's own meaning
  // ---------------------------------------------------------------------------

  /** `t` is matched from its start with lazy prefix `x`, groups `a` and `b`, and unmatched remainder `y`. */
  ghost predicate RegexMatch(t: string, x: string, a: string, b: string, y: string)
  {
    && '\n' !in x && '\n' !in a && '\n' !in b
    && t == x + "Issue:" + a + "\nReason:" + b + y
  }

  ghost predicate MatchesHere(t: string)
  {
    exists x, a, b, y :: RegexMatch(t, x, a, b, y)
  }

  lemma MatchShape(x: string, a: string, b: string, y: string)
    ensures x + "Issue:" + a + "\nReason:" + b + y == (x + "Issue:" + a) + ['\n'] + (("Reason:" + b) + y)
  {
    assert "\nReason:" == ['\n'] + "Reason:";
  }

  /** The lines of a matched text: the `Issue:` line, then the `Reason:` line running into the rest. */
  lemma MatchLines(t: string, x: string, a: string, b: string, y: string)
    requires RegexMatch(t, x, a, b, y)
    ensures Lines(t) == [x + "Issue:" + a, "Reason:" + b + Lines(y)[0]] + Lines(y)[1..]
  {
    MatchShape(x, a, b, y);
    assert '\n' !in x + "Issue:" + a;
    assert '\n' !in "Reason:" + b;
    SplitTwo(x + "Issue:" + a, "Reason:" + b, y, '\n');
  }

  lemma MatchInFirstLine(s: string, q: nat, x: string, a: string, b: string, y: string)
    requires q <= |Lines(s)[0]|
    requires RegexMatch(s[q..], x, a, b, y)
    ensures var ls := Lines(s);
      && |ls| >= 2
      && ls[0] == (s[..q] + x) + "Issue:" + a
      && ls[1] == "Reason:" + (b + Lines(y)[0])
  {
    FirstPiecePrefix(s, q, '\n');
    MatchLines(s[q..], x, a, b, y);
    Regroup(s[..q], x, "Issue:", a);
    Assoc("Reason:", b, Lines(y)[0]);
  }

  /** A match starting in the first line pins down the first two lines. */
  lemma FirstLineMatch(s: string, q: nat, x: string, a: string, b: string, y: string)
    requires q <= |Lines(s)[0]|
    ensures RegexMatch(s[q..], x, a, b, y) ==>
      var ls := Lines(s);
      && |ls| >= 2 && Qualifies(ls[0], ls[1])
      && Find(ls[0], "Issue:").value <= q + |x|
      && ls[0][q + |x| + 6..] == a && ls[1][7..] == b + Lines(y)[0]
  {
    if RegexMatch(s[q..], x, a, b, y) {
      var ls := Lines(s);
      MatchInFirstLine(s, q, x, a, b, y);
      FindTagged(ls[0], s[..q] + x, "Issue:", a);
      TaggedLine(ls[1], "Reason:", b + Lines(y)[0]);
    }
  }

  /** Qualifying first lines give a match at position 0 with the captures the parser returns. */
  lemma FirstLineCaptures(s: string) returns (y: string)
    requires |Lines(s)| >= 2 && QualifiesAt(Lines(s), 0)
    ensures y == [] || y[0] == '\n'
    ensures var ls := Lines(s); var f := Find(ls[0], "Issue:").value;
      RegexMatch(s, ls[0][..f], ls[0][f + 6..], ls[1][7..], y)
  {
    var ls := Lines(s);
    var f := Find(ls[0], "Issue:").value;
    y := SplitFirstTwo(s, '\n');
    var x, a, b := ls[0][..f], ls[0][f + 6..], ls[1][7..];
    TagSplit(ls[0], "Issue:", f);
    StartSplit(ls[1], "Reason:");
    assert '\n' !in ls[0] && '\n' !in ls[1];
    assert '\n' !in x && '\n' !in a && '\n' !in b;
    MatchShape(x, a, b, y);
  }

  lemma NoMatchInFirstLine(s: string, q: nat)
    requires q <= |Lines(s)[0]|
    requires |Lines(s)| < 2 || !QualifiesAt(Lines(s), 0)
    ensures !MatchesHere(s[q..])
  {
    forall x, a, b, y ensures !RegexMatch(s[q..], x, a, b, y) {
      FirstLineMatch(s, q, x, a, b, y);
    }
  }

  lemma FirstLineLeftmost(s: string) returns (x: string, y: string)
    requires |Lines(s)| >= 2 && QualifiesAt(Lines(s), 0)
    ensures var ls := Lines(s); var r := Captures(ls[0], ls[1]);
      && RegexMatch(s, x, r.answer, r.reason, y)
      && (y == [] || y[0] == '\n')
      && forall x', a', b', y' :: RegexMatch(s, x', a', b', y') ==>
           |x| <= |x'| && (|x'| == |x| ==> a' == r.answer && b' <= r.reason)
  {
    var ls := Lines(s);
    var f := Find(ls[0], "Issue:").value;
    y := FirstLineCaptures(s);
    x := ls[0][..f];
    forall x', a', b', y' | RegexMatch(s, x', a', b', y')
      ensures |x| <= |x'| && (|x'| == |x| ==> a' == ls[0][f + 6..] && b' <= ls[1][7..])
    {
      assert s[0..] == s;
      FirstLineMatch(s, 0, x', a', b', y');
    }
  }

  /** A reply whose first two lines do not qualify parses as the text after its first line. */
  lemma SkipFirstLine(s: string) returns (s': string)
    requires ParseReply(s).Some? && !QualifiesAt(Lines(s), 0)
    ensures |Lines(s)[0]| < |s| && s' == s[|Lines(s)[0]| + 1..]
    ensures ParseReply(s') == ParseReply(s)
  {
    s' := SplitFirst(s, '\n');
  }

  lemma NoMatchBefore(s: string, s': string, p': nat)
    requires |Lines(s)| < 2 || !QualifiesAt(Lines(s), 0)
    requires |Lines(s)[0]| < |s| && s' == s[|Lines(s)[0]| + 1..] && p' <= |s'|
    requires forall q :: 0 <= q < p' ==> !MatchesHere(s'[q..])
    ensures forall q :: 0 <= q < |Lines(s)[0]| + 1 + p' ==> !MatchesHere(s[q..])
  {
    var i := |Lines(s)[0]|;
    forall q | 0 <= q < i + 1 + p' ensures !MatchesHere(s[q..]) {
      if q <= i {
        NoMatchInFirstLine(s, q);
      } else {
        assert s[q..] == s'[q - i - 1..];
      }
    }
  }

  /**
   * `re.search` semantics: when the parser succeeds, its fields are the groups
   * of the leftmost match, with the shortest lazy prefix and the longest
   * greedy last group; no match starts earlier, and nothing after the
   * `Reason:` line matters.
   */
  lemma {:induction false} ParseIsLeftmostMatch(s: string) returns (p: nat, x: string, y: string)
    requires ParseReply(s).Some?
    ensures p <= |s|
    ensures var r := ParseReply(s).value; RegexMatch(s[p..], x, r.answer, r.reason, y)
    ensures y == [] || y[0] == '\n'
    ensures forall q :: 0 <= q < p ==> !MatchesHere(s[q..])
    ensures forall x', a', b', y' :: RegexMatch(s[p..], x', a', b', y') ==>
      var r := ParseReply(s).value;
      |x| <= |x'| && (|x'| == |x| ==> a' == r.answer && b' <= r.reason)
    decreases |s|
  {
    var ls := Lines(s);
    if QualifiesAt(ls, 0) {
      x, y := FirstLineLeftmost(s);
      p := 0;
      assert s[p..] == s;
    } else {
      var i := |ls[0]|;
      var s' := SkipFirstLine(s);
      var p', x0, y0 := ParseIsLeftmostMatch(s');
      p, x, y := i + 1 + p', x0, y0;
      assert s[p..] == s'[p'..];
      NoMatchBefore(s, s', p');
    }
  }

  /** When the parser fails, the pattern matches nowhere: Python raises `ValueError`. */
  lemma {:induction false} UnparsedHasNoMatch(s: string)
    requires ParseReply(s).None?
    ensures forall q :: 0 <= q <= |s| ==> !MatchesHere(s[q..])
    decreases |s|
  {
    var ls := Lines(s);
    SplitUnfold(s, '\n');
    forall q | 0 <= q <= |s| ensures !MatchesHere(s[q..]) {
      if q <= |ls[0]| {
        NoMatchInFirstLine(s, q);
      } else {
        var i := |ls[0]|;
        var s' := SplitFirst(s, '\n');
        assert s' == s[i + 1..];
        UnparsedHasNoMatch(s');
        assert s[q..] == s'[q - i - 1..];
      }
    }
  }

  /** The parser succeeds exactly when the regular expression matches somewhere in the reply. */
  lemma ParsesIffRegexMatches(s: string)
    ensures ParseReply(s).Some? <==> exists q :: 0 <= q <= |s| && MatchesHere(s[q..])
  {
    if ParseReply(s).Some? {
      var p, x, y := ParseIsLeftmostMatch(s);
      var r := ParseReply(s).value;
      assert RegexMatch(s[p..], x, r.answer, r.reason, y);
      assert MatchesHere(s[p..]);
    } else {
      UnparsedHasNoMatch(s);
    }
  }

  // ---------------------------------------------------------------------------
  // The parser in terms of lines
  // ---------------------------------------------------------------------------

  /** The parser reads the first qualifying line pair, whatever comes after it. */
  lemma {:induction false} ScanFindsFirst(ls: seq<string>, k: nat)
    requires k + 1 < |ls| && QualifiesAt(ls, k)
    requires forall j :: 0 <= j < k ==> !QualifiesAt(ls, j)
    ensures Scan(ls) == Some(Captures(ls[k], ls[k + 1]))
    decreases k
  {
    if k > 0 {
      assert !QualifiesAt(ls, 0);
      forall j | 0 <= j < k - 1 ensures !QualifiesAt(ls[1..], j) {
        assert !QualifiesAt(ls, j + 1);
      }
      ScanFindsFirst(ls[1..], k - 1);
    }
  }

  /** The parser fails exactly when no two consecutive lines qualify. */
  lemma {:induction false} ScanFailsIffNoPair(ls: seq<string>)
    ensures Scan(ls).None? <==> forall j :: 0 <= j && j + 1 < |ls| ==> !QualifiesAt(ls, j)
    decreases |ls|
  {
    if |ls| >= 2 && !QualifiesAt(ls, 0) {
      ScanFailsIffNoPair(ls[1..]);
      if Scan(ls).None? {
        forall j | 0 <= j && j + 1 < |ls| ensures !QualifiesAt(ls, j) {
          if j > 0 {
            assert QualifiesAt(ls[1..], j - 1) == QualifiesAt(ls, j);
          }
        }
      } else {
        var j :| 0 <= j && j + 1 < |ls[1..]| && QualifiesAt(ls[1..], j);
        assert QualifiesAt(ls, j + 1);
      }
    }
  }

  // ---------------------------------------------------------------------------
  // The reply format the prompts ask for
  // ---------------------------------------------------------------------------

  /** A reply in the prompts' format: `Issue: ` and `Reason: ` lines, each label followed by a space. */
  function FormatReply(issue: string, reason: string): string
  {
    "Issue: " + issue + "\nReason: " + reason
  }

  /** The reply the first prompt asks for when a section raises no issue. */
  const NoIssueReply := "Issue: None\nReason: None"

  lemma FormatIsMatch(issue: string, reason: string, tail: string)
    requires '\n' !in issue && '\n' !in reason
    ensures RegexMatch(FormatReply(issue, reason) + tail, [], " " + issue, " " + reason, tail)
  {
    assert "Issue: " == "Issue:" + " ";
    assert "\nReason: " == "\nReason:" + " ";
  }

  /**
   * Round trip: a reply in the prompts' format parses to its two fields, each
   * keeping the space after its label; any lines after the `Reason:` line are ignored.
   */
  lemma ParseFormatted(issue: string, reason: string, tail: string)
    requires '\n' !in issue && '\n' !in reason
    requires tail == [] || tail[0] == '\n'
    ensures ParseReply(FormatReply(issue, reason) + tail) == Some(IssueReason(" " + issue, " " + reason))
  {
    var t := FormatReply(issue, reason) + tail;
    FormatIsMatch(issue, reason, tail);
    MatchLines(t, [], " " + issue, " " + reason, tail);
    var ls := Lines(t);
    assert Lines(tail)[0] == [] by {
      SplitUnfold(tail, '\n');
    }
    FindTagged(ls[0], [], "Issue:", " " + issue);
    TaggedLine(ls[1], "Reason:", " " + reason);
    assert QualifiesAt(ls, 0);
  }

  lemma NoIssueReplyIsFormatted()
    ensures NoIssueReply == FormatReply("None", "None") + []
  {
  }

  lemma ParseNoIssueFields()
    ensures ParseReply(FormatReply("None", "None") + []) == Some(IssueReason(" None", " None"))
  {
    ParseFormatted("None", "None", []);
    assert " " + "None" == " None";
  }

  /** The no-issue reply parses to `" None"` twice, the label's space kept. */
  lemma NoIssueReplyParses()
    ensures ParseReply(NoIssueReply) == Some(IssueReason(" None", " None"))
  {
    NoIssueReplyIsFormatted();
    ParseNoIssueFields();
  }

  // ---------------------------------------------------------------------------
  // What the script writes for one chain call
  // ---------------------------------------------------------------------------

  const StepsTitle := "See intermediate steps"

  /**
   * The `try` block of map_reduce.py: the chain's final answer, then its map
   * steps inside an expander; or the shared handler for the exception raised.
   */
  function ReduceView(result: Outcome<ReduceAnswer>): (out: seq<Event>)
    ensures |out| >= 1
    ensures result.Answered? ==> out[0] == Text(result.value.outputText)
    ensures result.Raised? ==> out[|out| - 1] == ErrorText(result.error)
  {
    match result
    case Raised(e) => ErrorView(e)
    case Answered(answer) => [Text(answer.outputText), Expander(StepsTitle, [TextList(answer.intermediateSteps)])]
  }

  /** The strings a page writes, at top level or inside an expander, singly or as a list. */
  function Written(view: seq<Event>): set<string>
    decreases view
  {
    if view == [] then {}
    else
      (match view[0]
       case Text(t) => {t}
       case TextList(items) => set s | s in items
       case Expander(_, body) => Written(body)
       case _ => {}) + Written(view[1..])
  }

  /** The expanders of a page by title, with their bodies. */
  function Expanders(view: seq<Event>): seq<(string, seq<Event>)>
    decreases |view|
  {
    if view == [] then []
    else (if view[0].Expander? then [(view[0].title, view[0].body)] else []) + Expanders(view[1..])
  }

  /**
   * On an answer the page writes the final answer and every map step and
   * nothing else, the steps only inside the one expander; on an exception it
   * writes the failure message exactly when the exception is a ValueError.
   */
  lemma ReduceViewWrites(result: Outcome<ReduceAnswer>)
    ensures result.Answered? ==>
      && (forall s :: s in Written(ReduceView(result)) <==> s == result.value.outputText || s in result.value.intermediateSteps)
      && Expanders(ReduceView(result)) == [(StepsTitle, [TextList(result.value.intermediateSteps)])]
    ensures result.Raised? ==>
      && Expanders(ReduceView(result)) == []
      && (forall s :: s in Written(ReduceView(result)) <==> IsValueError(result.error) && s == ParseFailureMessage)
  {
    match result
    case Answered(answer) =>
      var body := [TextList(answer.intermediateSteps)];
      var view := [Text(answer.outputText), Expander(StepsTitle, body)];
      assert body[1..] == [] && view[1..][1..] == [];
      assert Written(body) == set s | s in answer.intermediateSteps;
      assert Written(view[1..]) == Written(body);
      assert Written(view) == {answer.outputText} + Written(body);
      assert Expanders(view[1..]) == [(StepsTitle, body)];
    case Raised(e) =>
      var last := [ErrorText(e)];
      assert last[1..] == [] && Written(last) == {} && Expanders(last) == [];
      if IsValueError(e) {
        var view := [Text(ParseFailureMessage), ErrorText(e)];
        assert view[1..] == last;
        assert Written(view) == {ParseFailureMessage};
      }
  }
}
