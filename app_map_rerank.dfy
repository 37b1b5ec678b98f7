/**
 * app_map_rerank.py: the same chain and parser as map_rerank.py, but the
 * display loop walks the chain's steps in the order the chain returned them;
 * the string-keyed sort beside it is computed and never read.
 */
module AppMapRerank {
  import opened Basics
  import opened PyInt
  import opened Review
  import opened MapRerank

  /** What app_map_rerank.py writes for one chain call: the cards of the steps not scored `"0"`, in the chain's order, or the error. */
  function InOrderView(result: Outcome<ChainAnswer>): seq<Event>
  {
    match result
    case Raised(e) => ErrorView(e)
    case Answered(answer) => Cards(Visible(answer.intermediateSteps))
  }

  /** The `try` block of app_map_rerank.py: a card for each step whose score is not `"0"`, in the chain's order. */
  method ShowInOrder(result: Outcome<ChainAnswer>) returns (out: seq<Event>)
    ensures out == InOrderView(result)
  {
    match result {
      case Raised(e) =>
        out := ErrorView(e);
      case Answered(answer) =>
        var steps := answer.intermediateSteps;
        out := [];
        for i := 0 to |steps|
          invariant out == Cards(Visible(steps[..i]))
        {
          var step := steps[i];
          ShownPrefix(steps, i);
          if step.score != "0" {
            out := out + Card(step);
          }
        }
        assert steps[..|steps|] == steps;
    }
  }

  /** Every event of a card is a divider or one of its three labelled lines. */
  lemma {:induction false} CardEvents(steps: seq<Step>)
    ensures forall ev :: ev in Cards(steps) ==> ev == Divider || (ev.Text? && ev.text != ParseFailureMessage)
    decreases |steps|
  {
    if steps != [] {
      var init := steps[..|steps| - 1];
      var last := steps[|steps| - 1];
      CardEvents(init);
      assert ("Issue: " + last.answer)[0] != ParseFailureMessage[0];
      assert ("Reason: " + last.reason)[0] != ParseFailureMessage[0];
      assert ("Score: " + last.score)[0] != ParseFailureMessage[0];
    }
  }

  /**
   * A chain answer is displayed without raising, whatever its scores: a step
   * has a card exactly when its score is not the text `"0"`, and the page
   * holds no failure message and no error.
   */
  lemma InOrderViewCards(answer: ChainAnswer)
    ensures forall st :: HasCard(InOrderView(Answered(answer)), st) <==> st in answer.intermediateSteps && st.score != "0"
    ensures forall ev :: ev in InOrderView(Answered(answer)) ==> ev == Divider || (ev.Text? && ev.text != ParseFailureMessage)
  {
    var steps := answer.intermediateSteps;
    forall st ensures HasCard(Cards(Visible(steps)), st) <==> st in steps && st.score != "0" {
      HasCardIff(Visible(steps), st);
      VisibleMembers(steps, st);
    }
    CardEvents(Visible(steps));
  }

  /** The chain's order is the page's order: the steps of `a + b` are shown as those of `a`, then those of `b`. */
  lemma InOrderKeepsOrder(outputText: string, a: seq<Step>, b: seq<Step>)
    ensures InOrderView(Answered(ChainAnswer(outputText, a + b)))
         == InOrderView(Answered(ChainAnswer(outputText, a))) + InOrderView(Answered(ChainAnswer(outputText, b)))
  {
    VisibleAppend(a, b);
    CardsAppend(Visible(a), Visible(b));
  }

  /** The two scripts agree on chain answers whose steps already come in order of non-increasing `int(score)`. */
  lemma AgreesWhenAlreadyRanked(answer: ChainAnswer)
    requires forall i :: 0 <= i < |answer.intermediateSteps| ==> Scored(answer.intermediateSteps[i])
    requires ScoreOrdered(answer.intermediateSteps)
    ensures InOrderView(Answered(answer)) == RerankView(Answered(answer))
  {
    RankedWhenOrdered(answer.intermediateSteps);
  }

  lemma ScoresOfWitness()
    ensures ParseInt(" 10") == Some(10) && ParseInt(" 80") == Some(80)
  {
    ParseDecimal(10);
    ParseDecimal(80);
    assert Decimal(10) == "10" && Decimal(80) == "80";
    ParseIgnoresLeadingSpace(" ", "10");
    ParseIgnoresLeadingSpace(" ", "80");
    assert " " + "10" == " 10" && " " + "80" == " 80";
  }

  /** Two steps, both shown, are rendered in the order given. */
  lemma TwoCards(a: Step, b: Step)
    requires a.score != "0" && b.score != "0"
    ensures Cards(Visible([a, b])) == Card(a) + Card(b)
  {
    assert [a, b][..1] == [a];
    assert Visible([a, b]) == [a, b];
    assert Cards([a, b]) == Card(a) + Card(b);
  }

  lemma WitnessKeys(low: Step, high: Step)
    requires ParseInt(low.score) == Some(10) && ParseInt(high.score) == Some(80)
    ensures DecorateKeys([low, high]) == Ok([Keyed(10, low), Keyed(80, high)])
  {
    assert [low, high][1..] == [high];
    assert [high][1..] == [];
    assert [Keyed(80, high)] + [] == [Keyed(80, high)];
    assert DecorateKeys([high]) == Ok([Keyed(80, high)]);
    assert [Keyed(10, low)] + [Keyed(80, high)] == [Keyed(10, low), Keyed(80, high)];
  }

  lemma WitnessSorted(low: Step, high: Step)
    ensures SortDesc([Keyed(10, low), Keyed(80, high)]) == [Keyed(80, high), Keyed(10, low)]
  {
    assert [Keyed(10, low), Keyed(80, high)][1..] == [Keyed(80, high)];
    assert SortDesc([Keyed(80, high)]) == [Keyed(80, high)];
  }

  /** The witness for any two shown steps whose scores `int()` reads as 10 and 80. */
  lemma UnsortedDisplayOf(low: Step, high: Step)
    requires ParseInt(low.score) == Some(10) && ParseInt(high.score) == Some(80)
    requires low.score != "0" && high.score != "0"
    ensures var answer := ChainAnswer("", [low, high]);
      && InOrderView(Answered(answer)) == Card(low) + Card(high)
      && RerankView(Answered(answer)) == Card(high) + Card(low)
  {
    WitnessKeys(low, high);
    WitnessSorted(low, high);
    assert StepsOf([Keyed(80, high), Keyed(10, low)]) == [high, low];
    TwoCards(low, high);
    TwoCards(high, low);
  }

  /**
   * As written, a step scored 10 returned before a step scored 80 is shown
   * first, while the sorted display of map_rerank.py shows the 80 first.
   */
  lemma UnsortedDisplayWitness()
    ensures var low := Step(" a", " r", " 10");
      var high := Step(" b", " r", " 80");
      var answer := ChainAnswer("", [low, high]);
      && InOrderView(Answered(answer)) == Card(low) + Card(high)
      && RerankView(Answered(answer)) == Card(high) + Card(low)
  {
    ScoresOfWitness();
    UnsortedDisplayOf(Step(" a", " r", " 10"), Step(" b", " r", " 80"));
  }
}
