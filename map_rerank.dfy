/**
 * map_rerank.py: the three-field reply parser, the no-issue reply its prompt
 * asks for, and the display of the chain's intermediate steps, sorted by
 * `int(score)` in descending order with the steps whose score is `"0"` left out.
 */
module MapRerank {
  import opened Basics
  import opened Text
  import opened PyInt
  import opened Review

  // ---------------------------------------------------------------------------
  // The output parser: re.search(r".*?Issue:(.*)\nReason:(.*)\nScore:(.*)", reply)
  // ---------------------------------------------------------------------------

  /** Three consecutive lines the pattern can match: an `Issue:` anywhere in the first, then a `Reason:` line and a `Score:` line. */
  predicate Qualifies(l0: string, l1: string, l2: string)
  {
    Find(l0, "Issue:").Some? && StartsWith(l1, "Reason:") && StartsWith(l2, "Score:")
  }

  /** The three groups read off qualifying lines: after the first `Issue:`, and after the two labels. */
  function Captures(l0: string, l1: string, l2: string): Step
    requires Qualifies(l0, l1, l2)
  {
    Step(l0[Find(l0, "Issue:").value + 6..], l1[7..], l2[6..])
  }

  /** The first qualifying line triple, scanning down the lines. */
  function Scan(ls: seq<string>): Option<Step>
    decreases |ls|
  {
    if |ls| < 3 then None
    else if Qualifies(ls[0], ls[1], ls[2]) then Some(Captures(ls[0], ls[1], ls[2]))
    else Scan(ls[1..])
  }

  /** The `RegexParser` of map_rerank.py (and app_map_rerank.py): `None` where it raises `ValueError`. */
  function ParseReply(reply: string): Option<Step>
  {
    Scan(Lines(reply))
  }

  predicate QualifiesAt(ls: seq<string>, k: nat)
    requires k + 2 < |ls|
  {
    Qualifies(ls[k], ls[k + 1], ls[k + 2])
  }

  // ---------------------------------------------------------------------------
  // The regular expression's own meaning, independent of lines
  // ---------------------------------------------------------------------------

  /**
   * `t` is matched from its start with lazy prefix `x`, groups `a`, `b`, `c`,
   * and unmatched remainder `y`. `.` matches anything but `'\n'`.
   */
  ghost predicate RegexMatch(t: string, x: string, a: string, b: string, c: string, y: string)
  {
    && '\n' !in x && '\n' !in a && '\n' !in b && '\n' !in c
    && t == x + "Issue:" + a + "\nReason:" + b + "\nScore:" + c + y
  }

  /** The pattern matches at the start of `t` in some way. */
  ghost predicate MatchesHere(t: string)
  {
    exists x, a, b, c, y :: RegexMatch(t, x, a, b, c, y)
  }

  /** The matched text, regrouped as three lines. */
  lemma MatchShape(x: string, a: string, b: string, c: string, y: string)
    ensures x + "Issue:" + a + "\nReason:" + b + "\nScore:" + c + y
         == (x + "Issue:" + a) + ['\n'] + (("Reason:" + b) + ['\n'] + (("Score:" + c) + y))
  {
    assert "\nReason:" == ['\n'] + "Reason:";
    assert "\nScore:" == ['\n'] + "Score:";
  }

  /** The lines of a matched text: the `Issue:` line, the `Reason:` line, then the `Score:` line running into the rest. */
  lemma MatchLines(t: string, x: string, a: string, b: string, c: string, y: string)
    requires RegexMatch(t, x, a, b, c, y)
    ensures Lines(t) == [x + "Issue:" + a, "Reason:" + b, "Score:" + c + Lines(y)[0]] + Lines(y)[1..]
  {
    MatchShape(x, a, b, c, y);
    assert '\n' !in x + "Issue:" + a;
    assert '\n' !in "Reason:" + b;
    assert '\n' !in "Score:" + c;
    SplitThree(x + "Issue:" + a, "Reason:" + b, "Score:" + c, y, '\n');
  }

  /** The lines of a text with a match starting at `q` in its first line. */
  lemma MatchInFirstLine(s: string, q: nat, x: string, a: string, b: string, c: string, y: string)
    requires q <= |Lines(s)[0]|
    requires RegexMatch(s[q..], x, a, b, c, y)
    ensures var ls := Lines(s);
      && |ls| >= 3
      && ls[0] == (s[..q] + x) + "Issue:" + a
      && ls[1] == "Reason:" + b
      && ls[2] == "Score:" + (c + Lines(y)[0])
  {
    FirstPiecePrefix(s, q, '\n');
    MatchLines(s[q..], x, a, b, c, y);
    Regroup(s[..q], x, "Issue:", a);
    Assoc("Score:", c, Lines(y)[0]);
    var l, l', head := Lines(s), Lines(s[q..]), [x + "Issue:" + a, "Reason:" + b, "Score:" + c + Lines(y)[0]];
    assert l' == head + Lines(y)[1..];
    assert l'[0] == head[0] && l'[1] == head[1] && l'[2] == head[2];
    assert l[0] == s[..q] + l'[0] && l[1] == l'[1] && l[2] == l'[2];
  }

  /** A match starting in the first line pins down the first three lines. */
  lemma FirstLineMatch(s: string, q: nat, x: string, a: string, b: string, c: string, y: string)
    requires q <= |Lines(s)[0]|
    ensures RegexMatch(s[q..], x, a, b, c, y) ==>
      var ls := Lines(s);
      && |ls| >= 3 && Qualifies(ls[0], ls[1], ls[2])
      && Find(ls[0], "Issue:").value <= q + |x|
      && ls[0][q + |x| + 6..] == a && ls[1][7..] == b && ls[2][6..] == c + Lines(y)[0]
  {
    if RegexMatch(s[q..], x, a, b, c, y) {
      var ls := Lines(s);
      MatchInFirstLine(s, q, x, a, b, c, y);
      FindTagged(ls[0], s[..q] + x, "Issue:", a);
      TaggedLine(ls[1], "Reason:", b);
      TaggedLine(ls[2], "Score:", c + Lines(y)[0]);
    }
  }

  /** Qualifying first lines give a match at position 0 with the captures the parser returns. */
  lemma FirstLineCaptures(s: string) returns (y: string)
    requires |Lines(s)| >= 3 && QualifiesAt(Lines(s), 0)
    ensures y == [] || y[0] == '\n'
    ensures var ls := Lines(s); var f := Find(ls[0], "Issue:").value;
      RegexMatch(s, ls[0][..f], ls[0][f + 6..], ls[1][7..], ls[2][6..], y)
  {
    var ls := Lines(s);
    var f := Find(ls[0], "Issue:").value;
    y := SplitFirstThree(s, '\n');
    var x, a, b, c := ls[0][..f], ls[0][f + 6..], ls[1][7..], ls[2][6..];
    TagSplit(ls[0], "Issue:", f);
    StartSplit(ls[1], "Reason:");
    StartSplit(ls[2], "Score:");
    assert '\n' !in ls[0] && '\n' !in ls[1] && '\n' !in ls[2];
    assert '\n' !in x && '\n' !in a && '\n' !in b && '\n' !in c;
    MatchShape(x, a, b, c, y);
  }

  /** A first line that does not begin a qualifying triple holds no match start. */
  lemma NoMatchInFirstLine(s: string, q: nat)
    requires q <= |Lines(s)[0]|
    requires |Lines(s)| < 3 || !QualifiesAt(Lines(s), 0)
    ensures !MatchesHere(s[q..])
  {
    forall x, a, b, c, y ensures !RegexMatch(s[q..], x, a, b, c, y) {
      FirstLineMatch(s, q, x, a, b, c, y);
    }
  }

  /** Qualifying first lines: the match at 0 with the parser's captures is the one Python picks at 0. */
  lemma FirstLineLeftmost(s: string) returns (x: string, y: string)
    requires |Lines(s)| >= 3 && QualifiesAt(Lines(s), 0)
    ensures var ls := Lines(s); var r := Captures(ls[0], ls[1], ls[2]);
      && RegexMatch(s, x, r.answer, r.reason, r.score, y)
      && (y == [] || y[0] == '\n')
      && forall x', a', b', c', y' :: RegexMatch(s, x', a', b', c', y') ==>
           |x| <= |x'| && (|x'| == |x| ==> a' == r.answer && b' == r.reason && c' <= r.score)
  {
    var ls := Lines(s);
    var f := Find(ls[0], "Issue:").value;
    y := FirstLineCaptures(s);
    x := ls[0][..f];
    forall x', a', b', c', y' | RegexMatch(s, x', a', b', c', y')
      ensures |x| <= |x'| && (|x'| == |x| ==> a' == ls[0][f + 6..] && b' == ls[1][7..] && c' <= ls[2][6..])
    {
      assert s[0..] == s;
      FirstLineMatch(s, 0, x', a', b', c', y');
    }
  }

  /**
   * `re.search` semantics: when the parser succeeds, its fields are the groups
   * of the leftmost match, with the shortest lazy prefix and the longest
   * greedy last group; no match starts earlier.
   */
  lemma {:induction false} ParseIsLeftmostMatch(s: string) returns (p: nat, x: string, y: string)
    requires ParseReply(s).Some?
    ensures p <= |s|
    ensures var r := ParseReply(s).value; RegexMatch(s[p..], x, r.answer, r.reason, r.score, y)
    ensures y == [] || y[0] == '\n'
    ensures forall q :: 0 <= q < p ==> !MatchesHere(s[q..])
    ensures forall x', a', b', c', y' :: RegexMatch(s[p..], x', a', b', c', y') ==>
      var r := ParseReply(s).value;
      |x| <= |x'| && (|x'| == |x| ==> a' == r.answer && b' == r.reason && c' <= r.score)
    decreases |s|
  {
    var ls := Lines(s);
    if QualifiesAt(ls, 0) {
      x, y := FirstLineLeftmost(s);
      p := 0;
      assert s[p..] == s;
    } else {
      var i := |ls[0]|;
      var s' := SkipFirstLine(s);
      var p', x0, y0 := ParseIsLeftmostMatch(s');
      p, x, y := i + 1 + p', x0, y0;
      assert s[p..] == s'[p'..];
      NoMatchBefore(s, s', p');
    }
  }

  /** A reply whose first three lines do not qualify parses as the text after its first line. */
  lemma SkipFirstLine(s: string) returns (s': string)
    requires ParseReply(s).Some? && !QualifiesAt(Lines(s), 0)
    ensures |Lines(s)[0]| < |s| && s' == s[|Lines(s)[0]| + 1..]
    ensures ParseReply(s') == ParseReply(s)
  {
    s' := SplitFirst(s, '\n');
  }

  /** No match starts in a non-qualifying first line, nor before `p'` in the text after it. */
  lemma NoMatchBefore(s: string, s': string, p': nat)
    requires |Lines(s)| < 3 || !QualifiesAt(Lines(s), 0)
    requires |Lines(s)[0]| < |s| && s' == s[|Lines(s)[0]| + 1..] && p' <= |s'|
    requires forall q :: 0 <= q < p' ==> !MatchesHere(s'[q..])
    ensures forall q :: 0 <= q < |Lines(s)[0]| + 1 + p' ==> !MatchesHere(s[q..])
  {
    var i := |Lines(s)[0]|;
    forall q | 0 <= q < i + 1 + p' ensures !MatchesHere(s[q..]) {
      if q <= i {
        NoMatchInFirstLine(s, q);
      } else {
        assert s[q..] == s'[q - i - 1..];
      }
    }
  }

  /** When the parser fails, the pattern matches nowhere: Python raises `ValueError`. */
  lemma {:induction false} UnparsedHasNoMatch(s: string)
    requires ParseReply(s).None?
    ensures forall q :: 0 <= q <= |s| ==> !MatchesHere(s[q..])
    decreases |s|
  {
    var ls := Lines(s);
    SplitUnfold(s, '\n');
    forall q | 0 <= q <= |s| ensures !MatchesHere(s[q..]) {
      if q <= |ls[0]| {
        NoMatchInFirstLine(s, q);
      } else {
        var i := |ls[0]|;
        var s' := SplitFirst(s, '\n');
        assert s' == s[i + 1..];
        UnparsedHasNoMatch(s');
        assert s[q..] == s'[q - i - 1..];
      }
    }
  }

  /** The parser succeeds exactly when the regular expression matches somewhere in the reply. */
  lemma ParsesIffRegexMatches(s: string)
    ensures ParseReply(s).Some? <==> exists q :: 0 <= q <= |s| && MatchesHere(s[q..])
  {
    if ParseReply(s).Some? {
      var p, x, y := ParseIsLeftmostMatch(s);
      var r := ParseReply(s).value;
      assert RegexMatch(s[p..], x, r.answer, r.reason, r.score, y);
      assert MatchesHere(s[p..]);
    } else {
      UnparsedHasNoMatch(s);
    }
  }

  // ---------------------------------------------------------------------------
  // The parser in terms of lines
  // ---------------------------------------------------------------------------

  /** The parser reads the first qualifying line triple, whatever comes after it. */
  lemma {:induction false} ScanFindsFirst(ls: seq<string>, k: nat)
    requires k + 2 < |ls| && QualifiesAt(ls, k)
    requires forall j :: 0 <= j < k ==> !QualifiesAt(ls, j)
    ensures Scan(ls) == Some(Captures(ls[k], ls[k + 1], ls[k + 2]))
    decreases k
  {
    if k > 0 {
      assert !QualifiesAt(ls, 0);
      forall j | 0 <= j < k - 1 ensures !QualifiesAt(ls[1..], j) {
        assert !QualifiesAt(ls, j + 1);
      }
      ScanFindsFirst(ls[1..], k - 1);
    }
  }

  /** The parser fails exactly when no three consecutive lines qualify. */
  lemma {:induction false} ScanFailsIffNoTriple(ls: seq<string>)
    ensures Scan(ls).None? <==> forall j :: 0 <= j && j + 2 < |ls| ==> !QualifiesAt(ls, j)
    decreases |ls|
  {
    if |ls| >= 3 && !QualifiesAt(ls, 0) {
      ScanFailsIffNoTriple(ls[1..]);
      forall j | 0 <= j && j + 3 < |ls| ensures QualifiesAt(ls[1..], j) == QualifiesAt(ls, j + 1) {
      }
      if Scan(ls).None? {
        forall j | 0 <= j && j + 2 < |ls| ensures !QualifiesAt(ls, j) {
          if j > 0 {
            assert QualifiesAt(ls[1..], j - 1) == QualifiesAt(ls, j);
          }
        }
      }
    }
  }

  // ---------------------------------------------------------------------------
  // The reply format the prompt asks for
  // ---------------------------------------------------------------------------

  /** A reply in the prompt's format: `Issue: `, `Reason: ` and `Score: ` lines, each label followed by a space. */
  function FormatReply(issue: string, reason: string, score: string): string
  {
    "Issue: " + issue + "\nReason: " + reason + "\nScore: " + score
  }

  /** The reply the prompt asks for when a section raises no issue. */
  const NoIssueReply := "Issue: None\nReason: None\nScore: 0"

  /** A formatted reply is a match of the pattern with an empty lazy prefix. */
  lemma FormatIsMatch(issue: string, reason: string, score: string, tail: string)
    requires '\n' !in issue && '\n' !in reason && '\n' !in score
    ensures RegexMatch(FormatReply(issue, reason, score) + tail, [], " " + issue, " " + reason, " " + score, tail)
  {
    assert "Issue: " == "Issue:" + " ";
    assert "\nReason: " == "\nReason:" + " ";
    assert "\nScore: " == "\nScore:" + " ";
  }

  /**
   * Round trip: a reply in the prompt's format parses to its three fields,
   * each keeping the space after its label, whatever lines follow it.
   */
  lemma ParseFormatted(issue: string, reason: string, score: string, tail: string)
    requires '\n' !in issue && '\n' !in reason && '\n' !in score
    requires tail == [] || tail[0] == '\n'
    ensures ParseReply(FormatReply(issue, reason, score) + tail) == Some(Step(" " + issue, " " + reason, " " + score))
  {
    var t := FormatReply(issue, reason, score) + tail;
    FormatIsMatch(issue, reason, score, tail);
    MatchLines(t, [], " " + issue, " " + reason, " " + score, tail);
    var ls := Lines(t);
    assert Lines(tail)[0] == [] by {
      SplitUnfold(tail, '\n');
    }
    FindTagged(ls[0], [], "Issue:", " " + issue);
    TaggedLine(ls[1], "Reason:", " " + reason);
    TaggedLine(ls[2], "Score:", " " + score);
    assert QualifiesAt(ls, 0);
  }

  /** The no-issue reply is a reply in the prompt's format. */
  lemma NoIssueReplyIsFormatted()
    ensures NoIssueReply == FormatReply("None", "None", "0") + []
  {
  }

  lemma ParseNoIssueFields()
    ensures ParseReply(FormatReply("None", "None", "0") + []) == Some(Step(" None", " None", " 0"))
  {
    ParseFormatted("None", "None", "0", []);
    assert " " + "None" == " None";
    assert " " + "0" == " 0";
  }

  /** The no-issue reply parses with a score of `" 0"`: the text `"0"` preceded by the label's space. */
  lemma NoIssueReplyParses()
    ensures ParseReply(NoIssueReply) == Some(Step(" None", " None", " 0"))
    ensures ParseInt(" 0") == Some(0)
  {
    NoIssueReplyIsFormatted();
    ParseNoIssueFields();
    SpacedZeroIsZero();
  }

  // ---------------------------------------------------------------------------
  // sorted(steps, key=lambda x: int(x["score"]), reverse=True)
  // ---------------------------------------------------------------------------

  /** `int()` accepts the step's score. */
  predicate Scored(st: Step)
  {
    ParseInt(st.score).Some?
  }

  /** A step paired with its sort key, as `sorted` pairs them before comparing. */
  datatype Keyed = Keyed(key: int, step: Step)

  /** Each pair's key is `int()` of its step's score. */
  predicate WellKeyed(ks: seq<Keyed>)
  {
    forall i :: 0 <= i < |ks| ==> ParseInt(ks[i].step.score) == Some(ks[i].key)
  }

  /** The steps of the pairs, in order. */
  function StepsOf(ks: seq<Keyed>): (steps: seq<Step>)
    ensures |steps| == |ks|
    ensures forall i :: 0 <= i < |ks| ==> steps[i] == ks[i].step
  {
    seq(|ks|, i requires 0 <= i < |ks| => ks[i].step)
  }

  /**
   * The keys, computed one step after the other; the first score `int()`
   * rejects ends the computation with its `ValueError`.
   */
  function DecorateKeys(steps: seq<Step>): Result<seq<Keyed>, PyError>
    decreases |steps|
  {
    if steps == [] then Ok([])
    else match ParseInt(steps[0].score)
      case None => Err(IntLiteralError(steps[0].score))
      case Some(k) =>
        match DecorateKeys(steps[1..])
        case Err(e) => Err(e)
        case Ok(rest) => Ok([Keyed(k, steps[0])] + rest)
  }

  /** Computed keys belong to the steps, in order, and each is `int()` of its step's score. */
  lemma {:induction false} DecoratedPairs(steps: seq<Step>)
    requires DecorateKeys(steps).Ok?
    ensures StepsOf(DecorateKeys(steps).value) == steps
    ensures WellKeyed(DecorateKeys(steps).value)
    decreases |steps|
  {
    if steps != [] {
      DecoratedPairs(steps[1..]);
      var rest := DecorateKeys(steps[1..]).value;
      var k := ParseInt(steps[0].score).value;
      assert DecorateKeys(steps).value == [Keyed(k, steps[0])] + rest;
      assert StepsOf([Keyed(k, steps[0])] + rest) == [steps[0]] + StepsOf(rest);
    }
  }

  /** Key computation fails exactly when some score is rejected, and then with the first rejected score. */
  lemma {:induction false} DecorateFails(steps: seq<Step>)
    ensures DecorateKeys(steps).Err? <==> exists k :: 0 <= k < |steps| && !Scored(steps[k])
    ensures DecorateKeys(steps).Err? ==>
      exists k :: (&& 0 <= k < |steps| && !Scored(steps[k])
                   && (forall i :: 0 <= i < k ==> Scored(steps[i]))
                   && DecorateKeys(steps).error == IntLiteralError(steps[k].score))
    decreases |steps|
  {
    if steps != [] && Scored(steps[0]) {
      DecorateFails(steps[1..]);
      if DecorateKeys(steps).Err? {
        var k :| 0 <= k < |steps| - 1 && !Scored(steps[1..][k])
          && (forall i :: 0 <= i < k ==> Scored(steps[1..][i]))
          && DecorateKeys(steps[1..]).error == IntLiteralError(steps[1..][k].score);
        assert !Scored(steps[k + 1]);
      } else {
        forall k | 0 <= k < |steps| ensures Scored(steps[k]) {
          if k > 0 {
            assert steps[k] == steps[1..][k - 1];
          }
        }
      }
    }
  }

  /** Keys never increase along the sequence. */
  predicate NonIncreasing(ks: seq<Keyed>)
  {
    forall i, j :: 0 <= i < j < |ks| ==> ks[i].key >= ks[j].key
  }

  /** Places `x` before the first pair whose key is not larger than its own. */
  function Insert(x: Keyed, sorted: seq<Keyed>): (r: seq<Keyed>)
    ensures multiset(r) == multiset(sorted) + multiset{x}
    decreases |sorted|
  {
    if sorted == [] || sorted[0].key <= x.key then [x] + sorted
    else
      assert sorted == [sorted[0]] + sorted[1..];
      [sorted[0]] + Insert(x, sorted[1..])
  }

  /** Python's stable sort, descending by key: insertion from the back of the input. */
  function SortDesc(ks: seq<Keyed>): (r: seq<Keyed>)
    ensures multiset(r) == multiset(ks)
    decreases |ks|
  {
    if ks == [] then []
    else
      assert ks == [ks[0]] + ks[1..];
      Insert(ks[0], SortDesc(ks[1..]))
  }

  /** The pairs whose key is `v`, in order. */
  function WithKey(ks: seq<Keyed>, v: int): seq<Keyed>
    decreases |ks|
  {
    if ks == [] then []
    else (if ks[0].key == v then [ks[0]] else []) + WithKey(ks[1..], v)
  }

  lemma {:induction false} InsertKeepsOrder(x: Keyed, sorted: seq<Keyed>)
    requires NonIncreasing(sorted)
    ensures NonIncreasing(Insert(x, sorted))
    decreases |sorted|
  {
    if !(sorted == [] || sorted[0].key <= x.key) {
      var rest := Insert(x, sorted[1..]);
      InsertKeepsOrder(x, sorted[1..]);
      forall e | e in rest ensures sorted[0].key >= e.key {
        assert e in multiset(rest);
        assert e == x || e in sorted[1..];
      }
    }
  }

  /** The sorted pairs come in order of non-increasing key. */
  lemma {:induction false} SortDescOrders(ks: seq<Keyed>)
    ensures NonIncreasing(SortDesc(ks))
    decreases |ks|
  {
    if ks != [] {
      SortDescOrders(ks[1..]);
      InsertKeepsOrder(ks[0], SortDesc(ks[1..]));
    }
  }

  lemma {:induction false} InsertWithKey(x: Keyed, sorted: seq<Keyed>, v: int)
    ensures WithKey(Insert(x, sorted), v) == (if x.key == v then [x] else []) + WithKey(sorted, v)
    decreases |sorted|
  {
    if sorted == [] || sorted[0].key <= x.key {
      WithKeyCons(x, sorted, v);
    } else {
      var rest := Insert(x, sorted[1..]);
      InsertWithKey(x, sorted[1..], v);
      WithKeyCons(sorted[0], rest, v);
      WithKeyCons(sorted[0], sorted[1..], v);
      assert [sorted[0]] + sorted[1..] == sorted;
      assert sorted[0].key == v ==> x.key != v;
    }
  }

  /** The pairs with key `v` of a pair followed by more pairs. */
  lemma WithKeyCons(k: Keyed, ks: seq<Keyed>, v: int)
    ensures WithKey([k] + ks, v) == (if k.key == v then [k] else []) + WithKey(ks, v)
  {
    assert ([k] + ks)[1..] == ks;
  }

  /** The steps of a pair followed by more pairs. */
  lemma StepsOfCons(x: Keyed, ks: seq<Keyed>)
    ensures StepsOf([x] + ks) == [x.step] + StepsOf(ks)
  {
    var l, r := StepsOf([x] + ks), [x.step] + StepsOf(ks);
    assert |l| == |r|;
    forall i | 0 <= i < |l| ensures l[i] == r[i] {
      if i > 0 {
        assert ([x] + ks)[i] == ks[i - 1];
      }
    }
  }

  /** The steps of two runs of pairs, one after the other. */
  lemma StepsOfAppend(a: seq<Keyed>, b: seq<Keyed>)
    ensures StepsOf(a + b) == StepsOf(a) + StepsOf(b)
  {
    var l, r := StepsOf(a + b), StepsOf(a) + StepsOf(b);
    assert |l| == |r|;
    forall i | 0 <= i < |l| ensures l[i] == r[i] {
      if i >= |a| {
        assert (a + b)[i] == b[i - |a|];
      }
    }
  }

  /** Stability: the pairs sharing a key keep their input order. */
  lemma {:induction false} SortDescStable(ks: seq<Keyed>, v: int)
    ensures WithKey(SortDesc(ks), v) == WithKey(ks, v)
    decreases |ks|
  {
    if ks != [] {
      SortDescStable(ks[1..], v);
      InsertWithKey(ks[0], SortDesc(ks[1..]), v);
    }
  }

  lemma {:induction false} InsertKeepsKeys(x: Keyed, sorted: seq<Keyed>)
    requires WellKeyed(sorted) && ParseInt(x.step.score) == Some(x.key)
    ensures WellKeyed(Insert(x, sorted))
  {
    var r := Insert(x, sorted);
    forall i | 0 <= i < |r| ensures ParseInt(r[i].step.score) == Some(r[i].key) {
      assert r[i] in multiset(r);
      assert r[i] == x || r[i] in sorted;
    }
  }

  lemma {:induction false} SortKeepsKeys(ks: seq<Keyed>)
    requires WellKeyed(ks)
    ensures WellKeyed(SortDesc(ks))
    decreases |ks|
  {
    if ks != [] {
      SortKeepsKeys(ks[1..]);
      InsertKeepsKeys(ks[0], SortDesc(ks[1..]));
    }
  }

  lemma {:induction false} StepsOfInsert(x: Keyed, sorted: seq<Keyed>)
    ensures multiset(StepsOf(Insert(x, sorted))) == multiset(StepsOf(sorted)) + multiset{x.step}
    decreases |sorted|
  {
    if sorted == [] || sorted[0].key <= x.key {
      StepsOfCons(x, sorted);
    } else {
      var rest := Insert(x, sorted[1..]);
      StepsOfInsert(x, sorted[1..]);
      StepsOfCons(sorted[0], rest);
      StepsOfCons(sorted[0], sorted[1..]);
      assert [sorted[0]] + sorted[1..] == sorted;
    }
  }

  lemma {:induction false} StepsOfSort(ks: seq<Keyed>)
    ensures multiset(StepsOf(SortDesc(ks))) == multiset(StepsOf(ks))
    decreases |ks|
  {
    if ks != [] {
      StepsOfSort(ks[1..]);
      StepsOfInsert(ks[0], SortDesc(ks[1..]));
      StepsOfCons(ks[0], ks[1..]);
      assert [ks[0]] + ks[1..] == ks;
    }
  }

  /** Sorting pairs that are already in order changes nothing. */
  lemma {:induction false} SortDescOfOrdered(ks: seq<Keyed>)
    requires NonIncreasing(ks)
    ensures SortDesc(ks) == ks
    decreases |ks|
  {
    if ks != [] {
      SortDescOfOrdered(ks[1..]);
      assert ks == [ks[0]] + ks[1..];
    }
  }

  // ---------------------------------------------------------------------------
  // The ranking in terms of the steps
  // ---------------------------------------------------------------------------

  /** The steps in the order the display loop visits them, or the `ValueError` that `sorted` raises. */
  function Ranked(steps: seq<Step>): Result<seq<Step>, PyError>
  {
    match DecorateKeys(steps)
    case Err(e) => Err(e)
    case Ok(ks) => Ok(StepsOf(SortDesc(ks)))
  }

  /** `int()` of each score never increases along the steps. */
  predicate ScoreOrdered(steps: seq<Step>)
  {
    forall i, j :: 0 <= i < j < |steps| ==>
      Scored(steps[i]) && Scored(steps[j]) && ParseInt(steps[i].score).value >= ParseInt(steps[j].score).value
  }

  /** The steps whose score `int()` reads as `v`, in order. */
  function ScoredAs(steps: seq<Step>, v: int): seq<Step>
    decreases |steps|
  {
    if steps == [] then []
    else (if ParseInt(steps[0].score) == Some(v) then [steps[0]] else []) + ScoredAs(steps[1..], v)
  }

  lemma {:induction false} ScoredAsPairs(ks: seq<Keyed>, v: int)
    requires WellKeyed(ks)
    ensures ScoredAs(StepsOf(ks), v) == StepsOf(WithKey(ks, v))
    decreases |ks|
  {
    if ks != [] {
      ScoredAsPairs(ks[1..], v);
      StepsOfCons(ks[0], ks[1..]);
      assert [ks[0]] + ks[1..] == ks;
      assert ParseInt(ks[0].step.score) == Some(ks[0].key);
      var head := if ks[0].key == v then [ks[0]] else [];
      StepsOfAppend(head, WithKey(ks[1..], v));
      assert StepsOf(head) == if ks[0].key == v then [ks[0].step] else [];
    }
  }

  /** Sorting succeeds exactly when every score is an integer literal; otherwise the first bad score is the error. */
  lemma RankedRaises(steps: seq<Step>)
    ensures Ranked(steps).Err? <==> exists k :: 0 <= k < |steps| && !Scored(steps[k])
    ensures Ranked(steps).Err? ==>
      exists k :: (&& 0 <= k < |steps| && !Scored(steps[k])
                   && (forall i :: 0 <= i < k ==> Scored(steps[i]))
                   && Ranked(steps).error == IntLiteralError(steps[k].score))
  {
    DecorateFails(steps);
  }

  /** The ranked steps are the input steps, rearranged: nothing added, nothing lost. */
  lemma RankedPermutes(steps: seq<Step>)
    requires Ranked(steps).Ok?
    ensures multiset(Ranked(steps).value) == multiset(steps)
  {
    DecoratedPairs(steps);
    StepsOfSort(DecorateKeys(steps).value);
  }

  /** The ranked steps come in order of non-increasing `int(score)`. */
  lemma RankedOrders(steps: seq<Step>)
    requires Ranked(steps).Ok?
    ensures ScoreOrdered(Ranked(steps).value)
  {
    var ks := DecorateKeys(steps).value;
    DecoratedPairs(steps);
    SortKeepsKeys(ks);
    SortDescOrders(ks);
    OrderedSteps(SortDesc(ks));
  }

  /** Stability: steps with the same `int(score)` keep the order the chain returned them in. */
  lemma RankedStable(steps: seq<Step>, v: int)
    requires Ranked(steps).Ok?
    ensures ScoredAs(Ranked(steps).value, v) == ScoredAs(steps, v)
  {
    var ks := DecorateKeys(steps).value;
    DecoratedPairs(steps);
    SortKeepsKeys(ks);
    ScoredAsPairs(SortDesc(ks), v);
    SortDescStable(ks, v);
    ScoredAsPairs(ks, v);
  }

  // ---------------------------------------------------------------------------
  // What the page shows
  // ---------------------------------------------------------------------------

  /** What map_rerank.py writes for one chain call: the cards of the ranked steps not scored `"0"`, or the error. */
  function RerankView(result: Outcome<ChainAnswer>): seq<Event>
  {
    match result
    case Raised(e) => ErrorView(e)
    case Answered(answer) =>
      match Ranked(answer.intermediateSteps)
      case Err(e) => ErrorView(e)
      case Ok(sorted) => Cards(Visible(sorted))
  }

  /** The `try` block of map_rerank.py: sort, then write a card for each step whose score is not `"0"`. */
  method ShowRanked(result: Outcome<ChainAnswer>) returns (out: seq<Event>)
    ensures out == RerankView(result)
  {
    match result {
      case Raised(e) =>
        out := ErrorView(e);
      case Answered(answer) =>
        var ranked := Ranked(answer.intermediateSteps);
        match ranked {
          case Err(e) =>
            out := ErrorView(e);
          case Ok(sorted) =>
            out := ShowCards(sorted);
        }
    }
  }

  /** The display loop of map_rerank.py: a card for each step whose score is not `"0"`, in the order given. */
  method ShowCards(steps: seq<Step>) returns (out: seq<Event>)
    ensures out == Cards(Visible(steps))
  {
    out := [];
    for i := 0 to |steps|
      invariant out == Cards(Visible(steps[..i]))
    {
      var step := steps[i];
      ShownPrefix(steps, i);
      if step.score != "0" {
        out := out + Card(step);
      }
    }
    assert steps[..|steps|] == steps;
  }

  /** One more step of the loop: its card is added exactly when its score is not `"0"`. */
  lemma ShownPrefix(steps: seq<Step>, i: nat)
    requires i < |steps|
    ensures Cards(Visible(steps[..i + 1]))
         == Cards(Visible(steps[..i])) + (if steps[i].score != "0" then Card(steps[i]) else [])
  {
    assert steps[..i + 1][..i] == steps[..i];
    var v := Visible(steps[..i]);
    if steps[i].score != "0" {
      CardsAppend(v, [steps[i]]);
      assert [steps[i]][..0] == [];
    } else {
      assert v + [] == v;
    }
  }

  lemma {:induction false} VisibleKeepsScoreOrder(steps: seq<Step>)
    requires ScoreOrdered(steps)
    ensures ScoreOrdered(Visible(steps))
    decreases |steps|
  {
    if steps != [] {
      var init := steps[..|steps| - 1];
      var last := steps[|steps| - 1];
      assert ScoreOrdered(init);
      VisibleKeepsScoreOrder(init);
      forall st | st in Visible(init)
        ensures Scored(st) && Scored(last) && ParseInt(st.score).value >= ParseInt(last.score).value
      {
        VisibleMembers(init, st);
        var i :| 0 <= i < |init| && init[i] == st;
        assert steps[i] == st;
      }
    }
  }

  /**
   * After a successful sort the page holds one card per step not scored `"0"`,
   * a step the chain returned twice getting two, in order of non-increasing
   * `int(score)`, and nothing else.
   */
  lemma RerankViewCards(answer: ChainAnswer)
    requires Ranked(answer.intermediateSteps).Ok?
    ensures var shown := Visible(Ranked(answer.intermediateSteps).value);
      && RerankView(Answered(answer)) == Cards(shown)
      && ScoreOrdered(shown)
      && multiset(shown) <= multiset(answer.intermediateSteps)
      && multiset(shown) == multiset(Visible(answer.intermediateSteps))
      && (forall st :: multiset(shown)[st] == if st.score != "0" then multiset(answer.intermediateSteps)[st] else 0)
      && forall st :: HasCard(RerankView(Answered(answer)), st) <==> st in answer.intermediateSteps && st.score != "0"
  {
    var steps := answer.intermediateSteps;
    var sorted := Ranked(steps).value;
    RankedPermutes(steps);
    RankedOrders(steps);
    VisibleKeepsScoreOrder(sorted);
    VisibleSubMultiset(sorted);
    forall st: Step ensures multiset(Visible(sorted))[st] == if st.score != "0" then multiset(steps)[st] else 0 {
      RankedVisibleCount(steps, st);
    }
    VisiblePermutation(sorted, steps);
    forall st ensures HasCard(Cards(Visible(sorted)), st) <==> st in steps && st.score != "0" {
      HasCardIff(Visible(sorted), st);
      VisibleMembers(sorted, st);
      assert st in sorted <==> st in multiset(sorted);
    }
  }

  /** A step appears on the ranked page as many times as the chain returned it, unless its score is the text `"0"`. */
  lemma RankedVisibleCount(steps: seq<Step>, st: Step)
    requires Ranked(steps).Ok?
    ensures multiset(Visible(Ranked(steps).value))[st] == if st.score != "0" then multiset(steps)[st] else 0
  {
    RankedPermutes(steps);
    VisibleCount(Ranked(steps).value, st);
  }

  /** A score `int()` rejects ends the display before any card: the page shows the failure message and the error. */
  lemma RerankViewBadScore(answer: ChainAnswer)
    requires exists k :: 0 <= k < |answer.intermediateSteps| && !Scored(answer.intermediateSteps[k])
    ensures Divider !in RerankView(Answered(answer))
    ensures exists k :: (&& 0 <= k < |answer.intermediateSteps| && !Scored(answer.intermediateSteps[k])
                         && (forall i :: 0 <= i < k ==> Scored(answer.intermediateSteps[i]))
                         && RerankView(Answered(answer))
                            == [Text(ParseFailureMessage), ErrorText(IntLiteralError(answer.intermediateSteps[k].score))])
  {
    RankedRaises(answer.intermediateSteps);
  }

  // ---------------------------------------------------------------------------
  // From the model's replies to the page
  // ---------------------------------------------------------------------------

  /**
   * The chain's use of the parser: one reply per document, parsed in order;
   * the first reply the parser rejects raises `ValueError`.
   */
  function ParseReplies(replies: seq<string>): Result<seq<Step>, PyError>
    decreases |replies|
  {
    if replies == [] then Ok([])
    else match ParseReply(replies[0])
      case None => Err(OutputParseError(replies[0]))
      case Some(st) =>
        match ParseReplies(replies[1..])
        case Err(e) => Err(e)
        case Ok(rest) => Ok([st] + rest)
  }

  /** Parsed replies line up with the replies; a failure names the first reply the parser rejects. */
  lemma {:induction false} ParseRepliesSpec(replies: seq<string>)
    ensures var r := ParseReplies(replies);
      r.Ok? ==> |r.value| == |replies| && forall i :: 0 <= i < |replies| ==> ParseReply(replies[i]) == Some(r.value[i])
    ensures var r := ParseReplies(replies);
      r.Err? ==> exists k :: (&& 0 <= k < |replies| && ParseReply(replies[k]).None?
                              && (forall i :: 0 <= i < k ==> ParseReply(replies[i]).Some?)
                              && r.error == OutputParseError(replies[k]))
    decreases |replies|
  {
    if replies != [] && ParseReply(replies[0]).Some? {
      ParseRepliesSpec(replies[1..]);
      var r := ParseReplies(replies);
      if r.Err? {
        var k :| (&& 0 <= k < |replies| - 1 && ParseReply(replies[1..][k]).None?
                  && (forall i :: 0 <= i < k ==> ParseReply(replies[1..][i]).Some?)
                  && ParseReplies(replies[1..]).error == OutputParseError(replies[1..][k]));
        assert ParseReply(replies[k + 1]).None?;
        forall i | 0 <= i < k + 1 ensures ParseReply(replies[i]).Some? {
          if i > 0 {
            assert replies[i] == replies[1..][i - 1];
          }
        }
      }
    }
  }

  /** A reply the parser rejects ends on the page as the failure message followed by the error. */
  lemma UnparsedReplyShown(replies: seq<string>)
    requires ParseReplies(replies).Err?
    ensures RerankView(Raised(ParseReplies(replies).error)) == [Text(ParseFailureMessage), ErrorText(ParseReplies(replies).error)]
  {
    ParseRepliesSpec(replies);
  }

  /** The parsed no-issue reply, as it reaches the display loop. */
  const NoIssueStep := Step(" None", " None", " 0")

  /**
   * As written, the no-issue reply the prompt asks for is displayed: the `!= "0"`
   * filter compares the text `" 0"`, space included, with `"0"`.
   */
  lemma NoIssueReplyDisplayed(replies: seq<string>, outputText: string)
    requires NoIssueReply in replies
    requires ParseReplies(replies).Ok? && Ranked(ParseReplies(replies).value).Ok?
    ensures HasCard(RerankView(Answered(ChainAnswer(outputText, ParseReplies(replies).value))), NoIssueStep)
  {
    var steps := ParseReplies(replies).value;
    ParseRepliesSpec(replies);
    NoIssueReplyParses();
    var k :| 0 <= k < |replies| && replies[k] == NoIssueReply;
    assert steps[k] == NoIssueStep;
    assert NoIssueStep.score != "0" by {
      assert NoIssueStep.score[0] == ' ';
    }
    RerankViewCards(ChainAnswer(outputText, steps));
  }

  /** The filter evidently intended: drop the pairs whose key, `int(score)`, is 0. */
  function NonZero(ks: seq<Keyed>): (r: seq<Keyed>)
    ensures forall kd :: kd in r <==> kd in ks && kd.key != 0
    ensures multiset(r) <= multiset(ks)
    decreases |ks|
  {
    if ks == [] then []
    else
      assert ks == [ks[0]] + ks[1..];
      (if ks[0].key != 0 then [ks[0]] else []) + NonZero(ks[1..])
  }

  /** The steps to display with the evidently intended filter, or the `ValueError` of the sort. */
  function IntendedShown(steps: seq<Step>): Result<seq<Step>, PyError>
  {
    match DecorateKeys(steps)
    case Err(e) => Err(e)
    case Ok(ks) => Ok(StepsOf(NonZero(SortDesc(ks))))
  }

  /** The page with the evidently intended filter. */
  function IntendedRerankView(result: Outcome<ChainAnswer>): seq<Event>
  {
    match result
    case Raised(e) => ErrorView(e)
    case Answered(answer) =>
      match IntendedShown(answer.intermediateSteps)
      case Err(e) => ErrorView(e)
      case Ok(shown) => Cards(shown)
  }

  lemma {:induction false} NonZeroKeepsOrder(ks: seq<Keyed>)
    requires NonIncreasing(ks)
    ensures NonIncreasing(NonZero(ks))
    decreases |ks|
  {
    if ks != [] {
      NonZeroKeepsOrder(ks[1..]);
      var rest := NonZero(ks[1..]);
      forall e | e in rest ensures ks[0].key >= e.key {
        assert e in ks[1..];
      }
    }
  }

  lemma StepsOfMembers(ks: seq<Keyed>, st: Step)
    ensures st in StepsOf(ks) <==> exists kd :: kd in ks && kd.step == st
  {
    if st in StepsOf(ks) {
      var i :| 0 <= i < |ks| && StepsOf(ks)[i] == st;
      assert ks[i] in ks;
    }
  }

  lemma KeyedMember(ks: seq<Keyed>, kd: Keyed)
    requires WellKeyed(ks) && kd in ks
    ensures ParseInt(kd.step.score) == Some(kd.key)
  {
    var i :| 0 <= i < |ks| && ks[i] == kd;
  }

  /** Sorting then dropping key 0 keeps exactly the steps whose score `int()` does not read as 0. */
  lemma NonZeroSteps(ks: seq<Keyed>, st: Step)
    requires WellKeyed(ks)
    ensures st in StepsOf(NonZero(SortDesc(ks))) <==> st in StepsOf(ks) && ParseInt(st.score) != Some(0)
  {
    var sorted := SortDesc(ks);
    StepsOfMembers(NonZero(sorted), st);
    StepsOfMembers(ks, st);
    if st in StepsOf(ks) && ParseInt(st.score) != Some(0) {
      var kd :| kd in ks && kd.step == st;
      KeyedMember(ks, kd);
      assert kd in multiset(sorted);
    }
    if st in StepsOf(NonZero(sorted)) {
      var kd :| kd in NonZero(sorted) && kd.step == st;
      assert kd in multiset(ks);
      KeyedMember(ks, kd);
    }
  }

  /** Pairs ordered by key give steps ordered by `int(score)`. */
  lemma OrderedSteps(ks: seq<Keyed>)
    requires WellKeyed(ks) && NonIncreasing(ks)
    ensures ScoreOrdered(StepsOf(ks))
  {
    var steps := StepsOf(ks);
    forall i, j | 0 <= i < j < |steps|
      ensures Scored(steps[i]) && Scored(steps[j]) && ParseInt(steps[i].score).value >= ParseInt(steps[j].score).value
    {
      var a, b := ks[i], ks[j];
      assert steps[i] == a.step && steps[j] == b.step;
      assert ParseInt(a.step.score) == Some(a.key);
      assert ParseInt(b.step.score) == Some(b.key);
      assert a.key >= b.key;
    }
    assert ScoreOrdered(steps);
  }

  lemma NonZeroKeepsKeys(ks: seq<Keyed>)
    requires WellKeyed(ks)
    ensures WellKeyed(NonZero(ks))
  {
    forall i | 0 <= i < |NonZero(ks)| ensures ParseInt(NonZero(ks)[i].step.score) == Some(NonZero(ks)[i].key) {
      KeyedMember(ks, NonZero(ks)[i]);
    }
  }

  /** Dropping key 0 keeps every copy of a step whose score `int()` does not read as 0, and no copy of the others. */
  lemma NonZeroCount(ks: seq<Keyed>, st: Step)
    requires WellKeyed(ks)
    ensures multiset(StepsOf(NonZero(ks)))[st] == if ParseInt(st.score) != Some(0) then multiset(StepsOf(ks))[st] else 0
  {
    NonZeroCountOf(ks, st, ParseInt(st.score));
  }

  /** `NonZeroCount` with `int()` of the step's score given as `v`, the key every copy of the step carries. */
  lemma {:induction false} NonZeroCountOf(ks: seq<Keyed>, st: Step, v: Option<int>)
    requires forall i :: 0 <= i < |ks| && ks[i].step == st ==> Some(ks[i].key) == v
    ensures multiset(StepsOf(NonZero(ks)))[st] == if v != Some(0) then multiset(StepsOf(ks))[st] else 0
    decreases |ks|
  {
    if ks != [] {
      var rest := ks[1..];
      forall i | 0 <= i < |rest| && rest[i].step == st ensures Some(rest[i].key) == v {
        assert rest[i] == ks[i + 1];
      }
      NonZeroCountOf(rest, st, v);
      NonZeroStepsCons(ks);
      StepsOfTail(ks);
      ConsCount(ks[0].step, StepsOf(rest), st);
      ConsCount(ks[0].step, StepsOf(NonZero(rest)), st);
    }
  }

  /** The first pair's step heads the selected steps when its key is not 0. */
  lemma NonZeroStepsCons(ks: seq<Keyed>)
    requires ks != []
    ensures StepsOf(NonZero(ks)) == if ks[0].key != 0 then [ks[0].step] + StepsOf(NonZero(ks[1..])) else StepsOf(NonZero(ks[1..]))
  {
    var rest := NonZero(ks[1..]);
    if ks[0].key != 0 {
      assert NonZero(ks) == [ks[0]] + rest;
      StepsOfCons(ks[0], rest);
    } else {
      assert NonZero(ks) == rest;
    }
  }

  lemma StepsOfTail(ks: seq<Keyed>)
    requires ks != []
    ensures StepsOf(ks) == [ks[0].step] + StepsOf(ks[1..])
  {
    assert [ks[0]] + ks[1..] == ks;
    StepsOfCons(ks[0], ks[1..]);
  }

  /** The copies of `st` in a run of steps with one step put in front. */
  lemma ConsCount(x: Step, rest: seq<Step>, st: Step)
    ensures multiset([x] + rest)[st] == (if x == st then 1 else 0) + multiset(rest)[st]
  {
    CountSplit([x], rest, st);
  }

  /** With the intended filter, a step is selected as many times as the chain returned it, unless `int()` reads its score as 0. */
  lemma IntendedShownCount(steps: seq<Step>, st: Step)
    requires IntendedShown(steps).Ok?
    ensures multiset(IntendedShown(steps).value)[st] == if ParseInt(st.score) != Some(0) then multiset(steps)[st] else 0
  {
    var ks := DecorateKeys(steps).value;
    DecoratedPairs(steps);
    SortKeepsKeys(ks);
    StepsOfSort(ks);
    NonZeroCount(SortDesc(ks), st);
  }

  /** The intended selection, in order of non-increasing `int(score)`. */
  lemma IntendedShownOrdered(steps: seq<Step>)
    requires IntendedShown(steps).Ok?
    ensures ScoreOrdered(IntendedShown(steps).value)
  {
    var ks := DecorateKeys(steps).value;
    var sorted := SortDesc(ks);
    DecoratedPairs(steps);
    SortKeepsKeys(ks);
    SortDescOrders(ks);
    NonZeroKeepsOrder(sorted);
    NonZeroKeepsKeys(sorted);
    OrderedSteps(NonZero(sorted));
  }

  /**
   * With the intended filter, a step has a card exactly when `int()` of its score
   * is not 0, and the cards come in order of non-increasing `int(score)`.
   */
  lemma IntendedRerankViewCards(answer: ChainAnswer)
    requires IntendedShown(answer.intermediateSteps).Ok?
    ensures var shown := IntendedShown(answer.intermediateSteps).value;
      && IntendedRerankView(Answered(answer)) == Cards(shown)
      && ScoreOrdered(shown)
      && (forall st :: multiset(shown)[st] == if ParseInt(st.score) != Some(0) then multiset(answer.intermediateSteps)[st] else 0)
      && forall st :: HasCard(IntendedRerankView(Answered(answer)), st) <==>
                        st in answer.intermediateSteps && ParseInt(st.score) != Some(0)
  {
    var steps := answer.intermediateSteps;
    var ks := DecorateKeys(steps).value;
    var shown := IntendedShown(steps).value;
    DecoratedPairs(steps);
    IntendedShownOrdered(steps);
    forall st: Step ensures multiset(shown)[st] == if ParseInt(st.score) != Some(0) then multiset(steps)[st] else 0 {
      IntendedShownCount(steps, st);
    }
    forall st ensures HasCard(Cards(shown), st) <==> st in steps && ParseInt(st.score) != Some(0) {
      HasCardIff(shown, st);
      NonZeroSteps(ks, st);
    }
  }

  /** With the intended filter, the no-issue reply the prompt asks for is not displayed. */
  lemma IntendedHidesNoIssueReply(answer: ChainAnswer)
    requires IntendedShown(answer.intermediateSteps).Ok?
    ensures !HasCard(IntendedRerankView(Answered(answer)), NoIssueStep)
  {
    IntendedRerankViewCards(answer);
    NoIssueReplyParses();
  }

  /** Steps that already come in order of non-increasing `int(score)` are ranked as they are. */
  lemma RankedWhenOrdered(steps: seq<Step>)
    requires forall i :: 0 <= i < |steps| ==> Scored(steps[i])
    requires ScoreOrdered(steps)
    ensures Ranked(steps) == Ok(steps)
  {
    DecorateFails(steps);
    var ks := DecorateKeys(steps).value;
    DecoratedPairs(steps);
    assert NonIncreasing(ks) by {
      forall i, j | 0 <= i < j < |ks| ensures ks[i].key >= ks[j].key {
        assert ks[i].step == steps[i] && ks[j].step == steps[j];
      }
    }
    SortDescOfOrdered(ks);
  }
}
