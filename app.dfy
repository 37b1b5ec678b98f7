/**
 * app.py: an uploaded MSA draft is fed to a conversational agent one
 * paragraph at a time, long paragraphs sentence by sentence, between a fixed
 * preamble and an `END OF FILE` marker; only the agent's reply to the marker
 * is written to the page.
 */
module UploadReview {
  import opened Basics
  import opened Text
  import opened Review

  /** The message that opens the conversation. */
  const Preamble := "Here are chunks of a MSA file. Once I input \"END OF FILE\", compare with the MSA playbook and return any potential problems"

  /** The message that closes it and asks for the review. */
  const EndOfFile := "END OF FILE"

  /** Paragraphs longer than this many characters are sent sentence by sentence. */
  const MaxWhole := 100

  /**
   * The agent built over the playbook. What it answers is not modelled: its
   * reply to a message is some function of the whole conversation so far, the
   * message included, and may be an exception.
   */
  class Agent {
    /** Every message passed to `agent_executor.run`, oldest first. */
    var sent: seq<string>
    const reply: seq<string> -> Outcome<string>

    constructor(reply: seq<string> -> Outcome<string>)
      ensures this.reply == reply && sent == []
    {
      this.reply := reply;
      sent := [];
    }

    /** `agent_executor.run(message)`. */
    method Run(message: string) returns (r: Outcome<string>)
      modifies this
      ensures sent == old(sent) + [message]
      ensures r == reply(sent)
    {
      sent := sent + [message];
      r := reply(sent);
    }
  }

  // ---------------------------------------------------------------------------
  // The messages a document gives
  // ---------------------------------------------------------------------------

  /** The messages one paragraph gives: none when blank, itself when short, its `'.'`-separated pieces when long. */
  function Pieces(text: string): (r: seq<string>)
  {
    if IsBlank(text) then []
    else if |text| > MaxWhole then Split(text, '.')
    else [text]
  }

  /** The messages of several paragraphs, in order. */
  function Segments(paragraphs: seq<string>): seq<string>
    decreases |paragraphs|
  {
    if paragraphs == [] then [] else Pieces(paragraphs[0]) + Segments(paragraphs[1..])
  }

  /** The whole conversation a document gives when no call raises. */
  function Messages(paragraphs: seq<string>): (r: seq<string>)
    ensures |r| >= 2 && r[0] == Preamble && r[|r| - 1] == EndOfFile
  {
    [Preamble] + Segments(paragraphs) + [EndOfFile]
  }

  /** After the preamble come the paragraphs' messages and the closing marker. */
  lemma MessagesAfterPreamble(paragraphs: seq<string>)
    ensures Messages(paragraphs)[1..] == Segments(paragraphs) + [EndOfFile]
  {
    var m := Messages(paragraphs);
    assert m == [Preamble] + (Segments(paragraphs) + [EndOfFile]);
  }

  /**
   * A paragraph is sent exactly when it is not blank; a short one is sent
   * whole; the pieces of any paragraph joined with `'.'` give it back, and a
   * long one gives one piece more than it has `'.'` characters.
   */
  lemma PiecesOfParagraph(text: string)
    ensures Pieces(text) == [] <==> IsBlank(text)
    ensures !IsBlank(text) && |text| <= MaxWhole ==> Pieces(text) == [text]
    ensures !IsBlank(text) ==> Join(Pieces(text), '.') == text
    ensures !IsBlank(text) && |text| > MaxWhole ==> |Pieces(text)| == Count(text, '.') + 1
  {
    if !IsBlank(text) && |text| > MaxWhole {
      JoinSplit(text, '.');
      SplitLength(text, '.');
    }
  }

  /** Paragraph order is kept: the messages of `a + b` are those of `a`, then those of `b`. */
  lemma {:induction false} SegmentsAppend(a: seq<string>, b: seq<string>)
    ensures Segments(a + b) == Segments(a) + Segments(b)
    decreases |a|
  {
    if a == [] {
      assert a + b == b;
    } else {
      assert (a + b)[1..] == a[1..] + b;
      SegmentsAppend(a[1..], b);
    }
  }

  /** Blank paragraphs anywhere in the document change nothing that is sent. */
  lemma BlankParagraphSendsNothing(a: seq<string>, blank: string, b: seq<string>)
    requires IsBlank(blank)
    ensures Messages(a + [blank] + b) == Messages(a + b)
  {
    assert Segments([blank]) == [] by {
      assert [blank][1..] == [];
    }
    calc {
      Segments(a + [blank] + b);
      { SegmentsAppend(a + [blank], b); }
      Segments(a + [blank]) + Segments(b);
      { SegmentsAppend(a, [blank]); }
      Segments(a) + Segments(b);
      { SegmentsAppend(a, b); }
      Segments(a + b);
    }
  }

  // ---------------------------------------------------------------------------
  // One conversation, stopped by the first exception
  // ---------------------------------------------------------------------------

  /** The conversation after the calls: the messages passed, and what the last call returned. */
  datatype Run = Run(log: seq<string>, last: Outcome<string>)

  /** Passing `messages` one by one after `log`, until one call raises or all are passed. */
  function Deliver(reply: seq<string> -> Outcome<string>, log: seq<string>, messages: seq<string>): Run
    requires messages != []
    decreases |messages|
  {
    var log' := log + [messages[0]];
    var out := reply(log');
    if out.Raised? || |messages| == 1 then Run(log', out) else Deliver(reply, log', messages[1..])
  }

  /** The log after passing the first `k + 1` of `messages`. */
  function SentUpTo(log: seq<string>, messages: seq<string>, k: nat): seq<string>
    requires k < |messages|
  {
    log + messages[..k + 1]
  }

  /** The call passing the `k`-th message returned a value. */
  predicate AnsweredAt(reply: seq<string> -> Outcome<string>, log: seq<string>, messages: seq<string>, k: nat)
    requires k < |messages|
  {
    reply(SentUpTo(log, messages, k)).Answered?
  }

  /**
   * A conversation passes a prefix of its messages, the last of which is the
   * only call that may raise: all of them when none raises, up to the first
   * that raises otherwise.
   */
  lemma {:induction false} DeliverPrefix(reply: seq<string> -> Outcome<string>, log: seq<string>, messages: seq<string>)
    returns (k: nat)
    requires messages != []
    ensures k < |messages|
    ensures Deliver(reply, log, messages).log == SentUpTo(log, messages, k)
    ensures Deliver(reply, log, messages).last == reply(SentUpTo(log, messages, k))
    ensures forall j :: 0 <= j < k ==> AnsweredAt(reply, log, messages, j)
    ensures Deliver(reply, log, messages).last.Answered? ==> k == |messages| - 1
    decreases |messages|
  {
    var log' := log + [messages[0]];
    assert log' == SentUpTo(log, messages, 0);
    if reply(log').Raised? || |messages| == 1 {
      k := 0;
    } else {
      var k' := DeliverPrefix(reply, log', messages[1..]);
      k := k' + 1;
      assert SentUpTo(log', messages[1..], k') == SentUpTo(log, messages, k);
      forall j | 0 <= j < k ensures AnsweredAt(reply, log, messages, j) {
        if j > 0 {
          assert SentUpTo(log', messages[1..], j - 1) == SentUpTo(log, messages, j);
          assert AnsweredAt(reply, log', messages[1..], j - 1);
        }
      }
    }
  }

  /** Passing one message: the conversation stops if it raises, and goes on with the rest otherwise. */
  lemma DeliverStep(reply: seq<string> -> Outcome<string>, log: seq<string>, messages: seq<string>)
    requires messages != []
    ensures reply(log + [messages[0]]).Raised? ==>
      Deliver(reply, log, messages) == Run(log + [messages[0]], reply(log + [messages[0]]))
    ensures reply(log + [messages[0]]).Answered? && |messages| > 1 ==>
      Deliver(reply, log, messages) == Deliver(reply, log + [messages[0]], messages[1..])
  {
  }

  /** The page: the reply to the last message passed, or the exception. */
  function UploadView(run: Run): (out: seq<Event>)
    ensures |out| == 1
  {
    match run.last
    case Raised(e) => [ErrorText(e)]
    case Answered(response) => [Text(response)]
  }

  /**
   * Only the reply to `END OF FILE` is displayed: when no call raises, the
   * agent has received exactly the document's messages and the page shows its
   * answer to all of them; otherwise the page shows the first exception and
   * nothing was sent after the message that raised it.
   */
  lemma UploadOutcome(reply: seq<string> -> Outcome<string>, log: seq<string>, paragraphs: seq<string>)
    ensures var run := Deliver(reply, log, Messages(paragraphs));
      && (run.last.Answered? ==>
            && run.log == log + Messages(paragraphs)
            && run.last == reply(log + Messages(paragraphs))
            && UploadView(run) == [Text(run.last.value)])
      && (run.last.Raised? ==>
            && UploadView(run) == [ErrorText(run.last.error)]
            && exists k :: 0 <= k < |Messages(paragraphs)| && run.log == SentUpTo(log, Messages(paragraphs), k))
  {
    var m := Messages(paragraphs);
    var k := DeliverPrefix(reply, log, m);
    assert m[..|m|] == m;
  }

  // ---------------------------------------------------------------------------
  // The upload handler
  // ---------------------------------------------------------------------------

  /**
   * The inner loop of app.py: the pieces of a long paragraph, one call each,
   * stopping at the first exception; `sub` counts the pieces sent.
   */
  method SendPieces(agent: Agent, parts: seq<string>, ghost tail: seq<string>) returns (failure: Option<PyError>, sub: nat)
    requires tail != []
    modifies agent
    ensures failure.Some? ==> Deliver(agent.reply, old(agent.sent), parts + tail) == Run(agent.sent, Raised(failure.value))
    ensures failure.None? ==> Deliver(agent.reply, old(agent.sent), parts + tail) == Deliver(agent.reply, agent.sent, tail)
    ensures failure.None? ==> agent.sent == old(agent.sent) + parts && sub == |parts|
  {
    failure, sub := None, 0;
    ghost var rest := parts + tail;
    assert parts[0..] == parts;
    for j := 0 to |parts|
      invariant rest == parts[j..] + tail
      invariant Deliver(agent.reply, old(agent.sent), parts + tail) == Deliver(agent.reply, agent.sent, rest)
      invariant sub == j
      invariant agent.sent == old(agent.sent) + parts[..j]
    {
      sub := sub + 1;
      DeliverStep(agent.reply, agent.sent, rest);
      var out := agent.Run(parts[j]);
      if out.Raised? {
        failure := Some(out.error);
        return;
      }
      rest := rest[1..];
      assert rest == parts[j + 1..] + tail;
      assert parts[..j + 1] == parts[..j] + [parts[j]];
    }
    assert parts[|parts|..] == [] && parts[..|parts|] == parts;
    assert rest == tail;
  }

  /**
   * The body of the paragraph loop of app.py: nothing for a blank paragraph,
   * the paragraph itself when short, its `'.'`-separated pieces otherwise,
   * stopping at the first exception; `sub` counts the pieces sent, and stays
   * 0 for a paragraph sent whole or not at all.
   */
  method SendParagraph(agent: Agent, text: string, ghost tail: seq<string>) returns (failure: Option<PyError>, sub: nat)
    requires tail != []
    modifies agent
    ensures failure.Some? ==> Deliver(agent.reply, old(agent.sent), Pieces(text) + tail) == Run(agent.sent, Raised(failure.value))
    ensures failure.None? ==> Deliver(agent.reply, old(agent.sent), Pieces(text) + tail) == Deliver(agent.reply, agent.sent, tail)
    ensures failure.None? && |text| > MaxWhole ==> sub == |Pieces(text)|
    ensures failure.None? ==> agent.sent == old(agent.sent) + Pieces(text)
    ensures failure.None? ==> sub == if |text| > MaxWhole then |Pieces(text)| else 0
  {
    failure, sub := None, 0;
    ghost var rest := Pieces(text) + tail;
    if !(text != [] && IsBlank(text)) && text != "" {
      assert !IsBlank(text);
      if |text| > MaxWhole {
        var parts := Split(text, '.');
        assert Pieces(text) == parts;
        failure, sub := SendPieces(agent, parts, tail);
      } else {
        assert Pieces(text) == [text];
        DeliverStep(agent.reply, agent.sent, rest);
        var out := agent.Run(text);
        if out.Raised? {
          failure := Some(out.error);
          return;
        }
        assert rest[1..] == tail;
      }
    } else {
      assert IsBlank(text);
      assert rest == tail;
    }
  }

  /**
   * The `try` block of app.py: the preamble, then each paragraph's messages,
   * then `END OF FILE`, stopping at the first exception; `count` is the
   * number of paragraphs handled.
   */
  method ReviewUpload(agent: Agent, paragraphs: seq<string>) returns (page: seq<Event>, count: nat)
    modifies agent
    ensures var run := Deliver(agent.reply, old(agent.sent), Messages(paragraphs));
      agent.sent == run.log && page == UploadView(run)
    ensures page[0].Text? ==> count == |paragraphs|
  {
    ghost var all := Messages(paragraphs);
    ghost var start := agent.sent;
    count := 0;
    DeliverStep(agent.reply, agent.sent, all);
    var out := agent.Run(Preamble);
    if out.Raised? {
      page := [ErrorText(out.error)];
      return;
    }
    ghost var rest := Segments(paragraphs) + [EndOfFile];
    MessagesAfterPreamble(paragraphs);
    assert paragraphs[0..] == paragraphs;
    var sub := 0;
    for i := 0 to |paragraphs|
      invariant rest == Segments(paragraphs[i..]) + [EndOfFile]
      invariant Deliver(agent.reply, start, all) == Deliver(agent.reply, agent.sent, rest)
      invariant count == i
      invariant sub == 0
    {
      assert paragraphs[i..][1..] == paragraphs[i + 1..];
      ghost var tail := Segments(paragraphs[i + 1..]) + [EndOfFile];
      assert rest == Pieces(paragraphs[i]) + tail;
      var failure, pieces := SendParagraph(agent, paragraphs[i], tail);
      sub := sub + pieces;
      if failure.Some? {
        page := [ErrorText(failure.value)];
        return;
      }
      rest := tail;
      count := count + 1;
      sub := 0;
    }
    assert paragraphs[|paragraphs|..] == [];
    DeliverStep(agent.reply, agent.sent, rest);
    out := agent.Run(EndOfFile);
    page := UploadView(Run(agent.sent, out));
  }
}
