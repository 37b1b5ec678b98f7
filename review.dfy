/**
 * What the review scripts share: the record a parsed reply becomes, the
 * exceptions that reach the scripts' `try` blocks, the chain call's outcome,
 * and what the scripts write to the page.
 */
module Review {

  /** One parsed model reply: the `answer`, `reason` and `score` keys of the output parser. */
  datatype Step = Step(answer: string, reason: string, score: string)

  /** The exceptions the scripts catch. */
  datatype PyError =
    | IntLiteralError(literal: string)     // `int()` raised ValueError on this text
    | OutputParseError(text: string)       // the regex output parser raised ValueError on this reply
    | OtherValueError(description: string) // any other ValueError or subclass (JSONDecodeError, ...) from the chain call
    | OtherError(description: string)      // any exception that is not a ValueError (network, ...)

  /** `except ValueError` catches exactly these. */
  predicate IsValueError(e: PyError)
  {
    e.IntLiteralError? || e.OutputParseError? || e.OtherValueError?
  }

  /** What the chain call returns to the script: a value, or the exception it raised. */
  datatype Outcome<+T> = Answered(value: T) | Raised(error: PyError)

  /** The dictionary a map-rerank chain returns with `return_intermediate_steps=True`. */
  datatype ChainAnswer = ChainAnswer(outputText: string, intermediateSteps: seq<Step>)

  /** The dictionary a map-reduce chain returns with `return_map_steps=True`. */
  datatype ReduceAnswer = ReduceAnswer(outputText: string, intermediateSteps: seq<string>)

  /** One call on the page. */
  datatype Event =
    | Divider                                  // st.divider()
    | Text(text: string)                       // st.write(a string)
    | ErrorText(error: PyError)                // st.write(e)
    | RerankValue(answer: ChainAnswer)         // st.write(the whole chain result)
    | TextList(items: seq<string>)             // st.write(a list of strings)
    | Expander(title: string, body: seq<Event>) // with st.expander(title): ...

  const ParseFailureMessage := "Failed to parse output. Try again."

  /** The handler shared by the scripts with two `except` clauses. */
  function ErrorView(e: PyError): (out: seq<Event>)
    ensures |out| >= 1 && out[|out| - 1] == ErrorText(e)
    ensures Text(ParseFailureMessage) in out <==> IsValueError(e)
  {
    if IsValueError(e) then [Text(ParseFailureMessage), ErrorText(e)] else [ErrorText(e)]
  }

  /** A step as the display loop renders it: a divider, then its three fields. */
  function Card(step: Step): seq<Event>
  {
    [Divider, Text("Issue: " + step.answer), Text("Reason: " + step.reason), Text("Score: " + step.score)]
  }

  /** The cards of several steps, in order. */
  function Cards(steps: seq<Step>): (out: seq<Event>)
    ensures |out| == 4 * |steps|
    decreases |steps|
  {
    if steps == [] then [] else Cards(steps[..|steps| - 1]) + Card(steps[|steps| - 1])
  }

  /** Each step's card sits in its own block of four events. */
  lemma {:induction false} CardsAt(steps: seq<Step>, i: nat)
    requires i < |steps|
    ensures Cards(steps)[4 * i..4 * i + 4] == Card(steps[i])
    decreases |steps|
  {
    var init := steps[..|steps| - 1];
    if i < |steps| - 1 {
      CardsAt(init, i);
      assert Cards(steps)[4 * i..4 * i + 4] == Cards(init)[4 * i..4 * i + 4];
    } else {
      assert |Cards(init)| == 4 * i;
    }
  }

  /** Different steps have different cards. */
  lemma CardInjective(a: Step, b: Step)
    requires Card(a) == Card(b)
    ensures a == b
  {
    assert Card(a)[1] == Card(b)[1] && Card(a)[2] == Card(b)[2] && Card(a)[3] == Card(b)[3];
    assert a.answer == ("Issue: " + a.answer)[7..] && b.answer == ("Issue: " + b.answer)[7..];
    assert a.reason == ("Reason: " + a.reason)[8..] && b.reason == ("Reason: " + b.reason)[8..];
    assert a.score == ("Score: " + a.score)[7..] && b.score == ("Score: " + b.score)[7..];
  }

  /** A step on the page: its card is one of the blocks of four events. */
  ghost predicate HasCard(view: seq<Event>, st: Step)
  {
    exists i :: 0 <= i && 4 * i + 4 <= |view| && view[4 * i..4 * i + 4] == Card(st)
  }

  /** A step has a card on a rendered page exactly when it is one of the rendered steps. */
  lemma HasCardIff(steps: seq<Step>, st: Step)
    ensures HasCard(Cards(steps), st) <==> st in steps
  {
    if st in steps {
      var i :| 0 <= i < |steps| && steps[i] == st;
      CardsAt(steps, i);
    }
    if HasCard(Cards(steps), st) {
      var i :| 0 <= i && 4 * i + 4 <= |Cards(steps)| && Cards(steps)[4 * i..4 * i + 4] == Card(st);
      CardsAt(steps, i);
      CardInjective(steps[i], st);
    }
  }

  /** Rendering a concatenation renders the parts one after the other. */
  lemma {:induction false} CardsAppend(a: seq<Step>, b: seq<Step>)
    ensures Cards(a + b) == Cards(a) + Cards(b)
    decreases |b|
  {
    if b == [] {
      assert a + b == a;
    } else {
      var b' := b[..|b| - 1];
      assert (a + b)[..|a + b| - 1] == a + b';
      CardsAppend(a, b');
    }
  }

  /** The filter both rerank scripts apply: a step is shown unless its score text is exactly `"0"`. */
  function Visible(steps: seq<Step>): (shown: seq<Step>)
    ensures |shown| <= |steps|
    decreases |steps|
  {
    if steps == [] then []
    else
      var last := steps[|steps| - 1];
      Visible(steps[..|steps| - 1]) + (if last.score != "0" then [last] else [])
  }

  /** A step is shown iff it is one of the steps and its score is not the text `"0"`. */
  lemma {:induction false} VisibleMembers(steps: seq<Step>, st: Step)
    ensures st in Visible(steps) <==> st in steps && st.score != "0"
    decreases |steps|
  {
    if steps != [] {
      var init := steps[..|steps| - 1];
      VisibleMembers(init, st);
      assert steps == init + [steps[|steps| - 1]];
    }
  }

  /** The filter keeps order: filtering a concatenation filters each part. */
  lemma {:induction false} VisibleAppend(a: seq<Step>, b: seq<Step>)
    ensures Visible(a + b) == Visible(a) + Visible(b)
    decreases |b|
  {
    if b == [] {
      assert a + b == a;
    } else {
      var b' := b[..|b| - 1];
      assert (a + b)[..|a + b| - 1] == a + b';
      VisibleAppend(a, b');
    }
  }

  /** The filter keeps every copy of a step whose score is not the text `"0"`, and no copy of the others. */
  lemma {:induction false} VisibleCount(steps: seq<Step>, st: Step)
    ensures multiset(Visible(steps))[st] == if st.score != "0" then multiset(steps)[st] else 0
    decreases |steps|
  {
    if steps != [] {
      var init := steps[..|steps| - 1];
      var last := steps[|steps| - 1];
      var kept := if last.score != "0" then [last] else [];
      VisibleCount(init, st);
      assert steps == init + [last];
      assert Visible(steps) == Visible(init) + kept;
      CountSplit(init, [last], st);
      CountSplit(Visible(init), kept, st);
    }
  }

  /** The copies of `st` in two runs of steps, one after the other. */
  lemma CountSplit(a: seq<Step>, b: seq<Step>, st: Step)
    ensures multiset(a + b)[st] == multiset(a)[st] + multiset(b)[st]
  {
  }

  /** Filtering two arrangements of the same steps keeps the same steps. */
  lemma VisiblePermutation(a: seq<Step>, b: seq<Step>)
    requires multiset(a) == multiset(b)
    ensures multiset(Visible(a)) == multiset(Visible(b))
  {
    forall st: Step ensures multiset(Visible(a))[st] == multiset(Visible(b))[st] {
      VisibleCount(a, st);
      VisibleCount(b, st);
    }
  }

  /** Filtering drops steps and duplicates none. */
  lemma {:induction false} VisibleSubMultiset(steps: seq<Step>)
    ensures multiset(Visible(steps)) <= multiset(steps)
    decreases |steps|
  {
    if steps != [] {
      var init := steps[..|steps| - 1];
      VisibleSubMultiset(init);
      assert steps == init + [steps[|steps| - 1]];
    }
  }
}
