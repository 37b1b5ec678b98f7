# MSA review scripts, modelled in Dafny

The repository holds a handful of Streamlit scripts. Each one reviews a section of a
Master Services Agreement (MSA) against a playbook. It sends the section through a
langchain question-answering chain or a conversational agent, then writes the result
to the page. The scripts' own logic is small but exact. This project models that logic
and proves what it does:

- **Reply parsers.** Three `RegexParser` patterns turn a model reply into fields.
  - Each is a pure function over the reply's lines.
  - Each is proved equal to Python's `re.search` semantics. `.` never matches a
    newline, the leftmost match wins, a lazy prefix is as short as possible and a
    greedy last group as long as possible.
  - Each has a round trip: a reply written in the format its prompt asks for parses
    back to its fields. The prompt's own no-issue reply is worked out per script.
- **Prompt templates.** map_reduce.py and test_app.py write their templates in Python's
  `str.format` syntax. The model proves that each template passed to a `PromptTemplate`
  has exactly the fields its `input_variables` name. The unused `template` of
  test_app.py is proved to have the fields `context` and `msa_section` too.
- **Rerank display.**
  - map_rerank.py sorts the chain's intermediate steps by `int(score)`, descending and
    stably, then writes a card for each step whose score is not the text `"0"`.
  - app_map_rerank.py applies the same filter but keeps the chain's order.
  - Python's `int()` on a `str` is modelled as a partial function, as CPython 3.11
    runs it: it skips its own white space (not the separators `\x1c` to `\x1f` that
    `str.isspace` accepts) and rejects more than 4300 digits. Where it raises, the
    script's `ValueError` branch runs.
- **Upload segmentation** (app.py). A method over an `Agent` class appends every message
  to the agent's log. The messages are the preamble, each non-blank paragraph (whole
  when short, split on `'.'` when longer than 100 characters), then `END OF FILE`. The
  method stops at the first exception.

Modules:
- `Basics`: `Option` and `Result`.
- `Text`: Python `str` operations. These are `split` on one character, `join`, `find`,
  `startswith` and `isspace`.
- `PyInt`: `int(s)` in base 10, with the white space it strips.
- `Review`: what the scripts share. This covers the parsed step, the exceptions (which
  of them are a `ValueError`, including those raised inside the chain call), the
  chain's outcome, page events, cards, the `!= "0"` filter and the two-clause exception
  handler.
- `Prompt`: the field names of a template whose fields are plain names, as
  `string.Formatter().parse` reads them.
- `MapRerank`, `AppMapRerank`, `MapReduce` with `MapReducePrompts`, `TestApp` and
  `UploadReview`: one module per script.

Outside calls are inputs to the model:
- **The chain call** is a value of type `Outcome`: the dictionary the chain returned,
  or the exception it raised. A `ValueError` from inside the chain that is not the
  output parser's (a `JSONDecodeError`, say) is an `OtherValueError`; the scripts'
  `except ValueError` catches it like the parser's.
- **The agent's reply** is a function of the conversation so far, and may be an
  exception.
- **What the page shows** is a sequence of `Event`s, one per `st.write` or
  `st.divider` call.

## Model

| member | source | states |
|---|---|---|
| Text.JoinSplit | app.py:75 | Joining the pieces of `text.split(sep)` with `sep` gives the text back |
| Text.SplitJoin | app.py:75 | Splitting a join of separator-free pieces gives the pieces back |
| Text.SplitLength | app.py:75 | `split` on one character gives one more piece than there are separators |
| Text.Split | app.py:75 | `split` gives at least one piece, and no piece holds the separator |
| Text.FindFrom | map_rerank.py:24 | The position found is an occurrence of the pattern, no earlier one exists at or after the start, and `None` means there is none |
| PyInt.ParseDecimal | map_rerank.py:67 | `int(str(n)) == n` for every integer of at most 4300 digits, CPython's default limit; `int()` raises for a longer one |
| PyInt.ParseIgnoresLeadingSpace | map_rerank.py:67 | White space that `int()` skips (ASCII space, `\t` to `\r`, non-ASCII Unicode white space), put before the text, does not change what `int()` returns |
| PyInt.SeparatorsNotSkipped | map_rerank.py:67 | `int()` rejects the ASCII separators `\x1c` to `\x1f`, which `str.isspace` accepts: `int("\x1c5")`, `int("5\x1f")` and `int("-\x1c5")` raise |
| PyInt.SpacedZeroIsZero | map_rerank.py:67-69 | `int(" 0")` and `int("0")` are both 0, although only `"0"` is the text the filter compares with |
| PyInt.ParseUnsigned | map_rerank.py:67 | A well-formed digit string, underscores between digits allowed, is read as the number it denotes when it has at most 4300 digits, and raises otherwise |
| PyInt.ParseNegative | map_rerank.py:67 | A minus sign before well-formed digits gives the negated number when they are at most 4300 digits, and raises otherwise |
| Review.ErrorView | map_rerank.py:75-79 | The handler always ends with the exception, and writes the parse-failure message exactly when the exception is a ValueError |
| Review.Cards | map_rerank.py:68-73 | Each displayed step gives four events |
| Review.CardsAt | map_rerank.py:70-73 | The i-th step's card is the i-th block of four events: a divider, then the Issue, Reason and Score lines of that step |
| Review.CardInjective | map_rerank.py:71-73 | Different steps give different cards |
| Review.HasCardIff | map_rerank.py:68-73 | A step has a card on a rendered page exactly when it is one of the rendered steps |
| Review.CardsAppend | map_rerank.py:68-73 | The cards of a concatenation are the cards of each part, in order |
| Review.Visible | map_rerank.py:69 | The filter never adds steps |
| Review.VisibleMembers | map_rerank.py:69 | A step is kept exactly when it is one of the steps and its score text is not exactly `"0"` |
| Review.VisibleAppend | map_rerank.py:68-69 | The filter keeps order |
| Review.VisibleSubMultiset | map_rerank.py:68-69 | The filter drops steps and duplicates none |
| Review.VisibleCount | map_rerank.py:68-69 | Every copy of a step whose score is not exactly `"0"` is kept, and no copy of the others |
| Review.VisiblePermutation | map_rerank.py:67-69 | Filtering two arrangements of the same steps keeps the same steps, with the same number of copies |
| Prompt.FieldNamesOfSource | map_reduce.py:48-52 | For a template whose fields are plain names, Python's formatter finds exactly the template's own fields in its text |
| Prompt.TwoFieldNames | map_reduce.py:68-72 | A brace-free template with two fields has exactly those two field names |
| Prompt.ConcatBraceFree | map_reduce.py:28-46 | Brace-free runs of text make a brace-free text |
| MapRerank.FirstLineMatch | map_rerank.py:24 | A match starting in the first line forces an `Issue:` in it, then a `Reason:` line and a `Score:` line, with the groups as the rest of those lines |
| MapRerank.FirstLineLeftmost | map_rerank.py:24 | For qualifying first lines, the parser's captures are the match Python picks at position 0: the shortest lazy prefix, and the longest last group |
| MapRerank.ParseIsLeftmostMatch | map_rerank.py:23-26 | On success the fields are the groups of the leftmost match, with the shortest lazy prefix and the longest last group |
| MapRerank.UnparsedHasNoMatch | map_rerank.py:23-26 | When the parser fails, the pattern matches at no position, so `RegexParser` raises ValueError |
| MapRerank.ParsesIffRegexMatches | map_rerank.py:24 | The parser succeeds iff the regular expression matches somewhere in the reply |
| MapRerank.ScanFindsFirst | map_rerank.py:24-25 | The answer is the text after the first `Issue:` of the first qualifying line; reason and score are the rest of the next two lines after their labels, spaces kept |
| MapRerank.ScanFailsIffNoTriple | map_rerank.py:24 | Parsing fails iff no line holding `Issue:` is followed by a line starting `Reason:` and then one starting `Score:` |
| MapRerank.ParseFormatted | map_rerank.py:38-41 | A reply in the prompt's format parses to its three fields, each keeping the space after its label, whatever lines follow |
| MapRerank.NoIssueReplyParses | map_rerank.py:43-46 | The prompt's no-issue reply parses to `(" None", " None", " 0")`, and `int(" 0")` is 0 |
| MapRerank.Insert | map_rerank.py:67 | Insertion adds exactly the one pair |
| MapRerank.SortDesc | map_rerank.py:67 | The sort is a permutation of its input |
| MapRerank.SortDescOrders | map_rerank.py:67 | The sorted pairs come in order of non-increasing key |
| MapRerank.SortDescStable | map_rerank.py:67 | Pairs with equal keys keep their input order |
| MapRerank.SortDescOfOrdered | map_rerank.py:67 | Sorting pairs that are already in order changes nothing |
| MapRerank.DecoratedPairs | map_rerank.py:67 | The computed keys belong to the steps, in order, and each is `int()` of its step's score |
| MapRerank.DecorateFails | map_rerank.py:67 | Key computation fails iff some score is not integer text, and then with the first such score |
| MapRerank.RankedRaises | map_rerank.py:67 | `sorted` raises iff some score is not integer text, and the error names the first such score |
| MapRerank.RankedPermutes | map_rerank.py:67 | The ranked steps are the input steps rearranged: nothing added, nothing lost |
| MapRerank.RankedOrders | map_rerank.py:67 | The ranked steps come in order of non-increasing `int(score)` |
| MapRerank.RankedStable | map_rerank.py:67 | Steps with the same `int(score)` keep the chain's order |
| MapRerank.RankedWhenOrdered | map_rerank.py:67 | Steps already in non-increasing `int(score)` order are ranked as they are |
| MapRerank.ShowRanked | map_rerank.py:60-79 | The `try` block, sort then display loop, writes exactly the page `RerankView` specifies |
| MapRerank.ShowCards | map_rerank.py:68-73 | The `for` loop writes, in the order given, the cards of exactly the steps whose score is not `"0"`, proved through a prefix invariant |
| MapRerank.ShownPrefix | map_rerank.py:68-73 | Each loop step adds its card exactly when the step's score is not `"0"` |
| MapRerank.VisibleKeepsScoreOrder | map_rerank.py:67-69 | Filtering steps that are in score order keeps them in score order |
| MapRerank.RerankViewCards | map_rerank.py:67-73 | After a successful sort, the page is the cards of the steps not scored `"0"`, in non-increasing `int(score)` order, a step has a card iff it is one of the steps and its score is not `"0"`; each such step gets one card per copy the chain returned, none added or dropped, so the cards shown are the multiset of the filtered chain steps |
| MapRerank.RankedVisibleCount | map_rerank.py:67-69 | After sorting and filtering, a step appears as many times as the chain returned it, unless its score is exactly `"0"` |
| MapRerank.RerankViewBadScore | map_rerank.py:67 | A score `int()` rejects ends the display before any card; the page shows the failure message and the error for the first bad score |
| MapRerank.ParseRepliesSpec | map_rerank.py:23-26 | Parsed replies line up one to one with the replies; a failure names the first reply the parser rejects |
| MapRerank.UnparsedReplyShown | map_rerank.py:75-77 | A reply the parser rejects ends on the page as the failure message followed by the error |
| MapRerank.NoIssueReplyDisplayed | map_rerank.py:69 | As written, the prompt's no-issue reply gets a card, because its score is `" 0"` |
| MapRerank.NonZero | map_rerank.py:69 | The corrected filter keeps exactly the pairs whose key is not 0, and never adds any |
| MapRerank.NonZeroSteps | map_rerank.py:67-69 | Sorting, then dropping key 0, keeps exactly the steps whose score `int()` does not read as 0 |
| MapRerank.IntendedShownOrdered | map_rerank.py:67-69 | The corrected selection is in non-increasing `int(score)` order |
| MapRerank.IntendedRerankViewCards | map_rerank.py:67-73 | With the corrected filter, a step has a card iff `int(score)` is not 0, one card per copy the chain returned, and the cards are in score order |
| MapRerank.NonZeroCount | map_rerank.py:69 | The corrected filter keeps every copy of a step whose `int(score)` is not 0, and no copy of the others |
| MapRerank.IntendedShownCount | map_rerank.py:67-69 | After sorting and the corrected filter, a step appears as many times as the chain returned it, unless `int(score)` is 0 |
| MapRerank.IntendedHidesNoIssueReply | map_rerank.py:43-46 | With the corrected filter, the no-issue reply gets no card |
| AppMapRerank.ShowInOrder | app_map_rerank.py:52-71 | The `for` loop over the chain's steps writes exactly the page `InOrderView` specifies |
| AppMapRerank.CardEvents | app_map_rerank.py:62-65 | Every event of a card is a divider or a labelled line, never the failure message |
| AppMapRerank.InOrderViewCards | app_map_rerank.py:59-65 | Whatever the scores, nothing raises; a step has a card iff its score is not `"0"`, and the failure message never appears |
| AppMapRerank.InOrderKeepsOrder | app_map_rerank.py:60 | Display order is the chain's order: the page for `a + b` is the page for `a`, then the page for `b` |
| AppMapRerank.AgreesWhenAlreadyRanked | app_map_rerank.py:59-60 | The two scripts write the same page when the steps already come in non-increasing `int(score)` order |
| AppMapRerank.UnsortedDisplayWitness | app_map_rerank.py:59-60 | As written, a step scored 10 returned before one scored 80 is shown first; the sorted display shows the 80 first |
| AppMapRerank.UnsortedDisplayOf | app_map_rerank.py:59-60 | For any two shown steps whose scores `int()` reads as 10 and 80, returned in that order, as written the 10 is shown first; the sorted display shows the 80 first |
| MapReduce.FirstLineMatch | map_reduce.py:24 | A match starting in the first line forces an `Issue:` in it and a `Reason:` line after it, with the groups as the rest of those lines |
| MapReduce.FirstLineLeftmost | map_reduce.py:24 | For qualifying first lines, the parser's captures are the match Python picks at position 0 |
| MapReduce.ParseIsLeftmostMatch | map_reduce.py:23-26 | On success the fields are the groups of the leftmost match; nothing after the `Reason:` line matters |
| MapReduce.UnparsedHasNoMatch | map_reduce.py:23-26 | When the parser fails, the pattern matches at no position |
| MapReduce.ParsesIffRegexMatches | map_reduce.py:24 | The parser succeeds iff the regular expression matches somewhere in the reply |
| MapReduce.ScanFindsFirst | map_reduce.py:24-25 | The answer is the text after the first `Issue:` of the first qualifying line; the reason is the rest of the next line after `Reason:` |
| MapReduce.ScanFailsIffNoPair | map_reduce.py:24 | Parsing fails iff no line holding `Issue:` is followed by a line starting `Reason:` |
| MapReduce.ParseFormatted | map_reduce.py:39-41 | A reply in the prompts' format parses to its two fields, spaces kept, whatever lines follow |
| MapReduce.NoIssueReplyParses | map_reduce.py:43-45 | The no-issue reply parses to `(" None", " None")` |
| MapReduce.ReduceView | map_reduce.py:102-113 | The page starts with the chain's `output_text` unmodified, or ends with the exception |
| MapReduce.ReduceViewWrites | map_reduce.py:103-111 | An answer writes exactly the final text and the map steps, the steps only inside the one expander; an exception writes the failure message exactly when it is a ValueError |
| MapReducePrompts.PromptFields | map_reduce.py:28-52 | `prompt_template` has exactly the fields `context` and `msa_section` |
| MapReducePrompts.QuestionFields | map_reduce.py:54-72 | `question_prompt_template` has exactly the fields `context` and `msa_section` |
| MapReducePrompts.CombineFields | map_reduce.py:74-91 | `combine_prompt_template` has exactly the fields `summaries` and `msa_section` |
| MapReducePrompts.InstructedFormatParses | map_reduce.py:39-41 | The reply format the prompts spell out is itself accepted by the parser, which yields the bracketed placeholders |
| TestApp.FirstLineMatch | test_app.py:29 | A match starting in the first line takes the rest of that line as the answer and forces `Reason: ` and `Score: ` lines after it |
| TestApp.FirstLineLeftmost | test_app.py:29 | For qualifying first lines, the parser's captures are the only match at position 0, up to the greedy last group |
| TestApp.ParseIsLeftmostMatch | test_app.py:28-31 | On success the fields are the groups of the leftmost match |
| TestApp.UnparsedHasNoMatch | test_app.py:28-31 | When the parser fails, the pattern matches at no position |
| TestApp.ParsesIffRegexMatches | test_app.py:29 | The parser succeeds iff the regular expression matches somewhere in the reply |
| TestApp.AnswerIsWholeLine | test_app.py:29 | The answer is always one whole line of the reply, its label included |
| TestApp.ScanFindsFirst | test_app.py:29-30 | The fields come from the first line followed by `Reason: ` and `Score: ` lines; the labels' spaces are consumed |
| TestApp.ScanFailsIffNoTriple | test_app.py:29 | Parsing fails iff no line is followed by a line starting `Reason: ` and one starting `Score: ` |
| TestApp.ParseFormatted | test_app.py:38-40 | A step written in the prompt's format parses back to that step, whatever lines follow |
| TestApp.NoIssueReplyParses | test_app.py:35-40 | The no-issue reply parses to `("Issues: None", "None", "0")` |
| TestApp.SimpleFields | test_app.py:21-24 | `template`, which no live `PromptTemplate` uses, has exactly the fields `context` and `msa_section` |
| TestApp.PromptFields | test_app.py:33-54 | `prompt_template` has exactly the fields `context` and `msa_section` |
| TestApp.TestView | test_app.py:83-92 | The page holds exactly one write |
| TestApp.TestViewWritesAll | test_app.py:89-92 | The whole chain result is written, every step whatever its score; an exception is written as itself; the failure message never appears |
| UploadReview.Agent.constructor | app.py:46-51 | A new agent has received no message |
| UploadReview.Agent.Run | app.py:77 | A call appends its message to the log and returns the reply to the conversation so far |
| UploadReview.Messages | app.py:66-83 | The first message is the preamble and the last is `END OF FILE` |
| UploadReview.MessagesAfterPreamble | app.py:66-83 | After the preamble come the paragraphs' messages, then `END OF FILE` |
| UploadReview.PiecesOfParagraph | app.py:73-79 | A paragraph sends nothing iff it is blank. A short one is sent whole. The pieces joined with `'.'` give it back. A long one gives one more piece than it has `'.'` characters |
| UploadReview.SegmentsAppend | app.py:70 | Paragraph order is kept in the sent sequence |
| UploadReview.BlankParagraphSendsNothing | app.py:73 | An empty or white-space paragraph anywhere in the document changes nothing sent |
| UploadReview.DeliverPrefix | app.py:66-86 | The calls made are a prefix of the messages; all of them when none raises, else up to the first that raises |
| UploadReview.DeliverStep | app.py:77-79 | A call that raises ends the conversation; otherwise it goes on with the rest |
| UploadReview.UploadView | app.py:84-86 | The page holds exactly one write |
| UploadReview.UploadOutcome | app.py:66-86 | Only the reply to `END OF FILE` is shown; an exception is shown instead, and nothing was sent after the message that raised it |
| UploadReview.SendPieces | app.py:75-79 | The inner loop sends each `'.'`-piece of a long paragraph in order and stops at the first exception; without one, the log grows by exactly those pieces and `sub` equals their number |
| UploadReview.SendParagraph | app.py:72-81 | The loop body sends the paragraph's pieces in order and stops at the first exception; without one, the log grows by exactly `Pieces(text)`, and `sub` is the number of pieces for a long paragraph and 0 otherwise |
| UploadReview.ReviewUpload | app.py:66-86 | The agent's log is what the conversation specification gives, the page is its outcome, and `count` ends equal to the number of paragraphs |

## Left out

- The OpenAI model, the langchain chains and the vector-store agent are not modelled: they are network calls and foreign code. The chain's answer or exception, and the agent's reply as a function of the conversation so far, are inputs.
- How langchain's map-rerank chain runs the parser is not shown in the source. `MapRerank.ParseReplies` assumes one reply per document, parsed in order, the first failure raising; whether the map-reduce chain applies its parser at all is not modelled.
- Document loading and splitting (`Docx2txtLoader`, `RecursiveCharacterTextSplitter`, python-docx) are left out; paragraphs and chain answers are given values.
- Streamlit calls are left out as I/O: `st.title`, `text_input` and `file_uploader`, and the `if section:` and `if uploaded_file:` guards. What the scripts write is a sequence of `Event`s.
- Settings that are floats or environment variables are left out: `temperature`, `max_tokens` and the API key.
- `print("STARTING")` and `print(f'PROGRESS: ...')` in app.py are left out as console I/O.
- The value of `sub` in app.py is only printed, and printing is left out. `ReviewUpload` keeps `sub` as app.py does: it adds each paragraph's pieces and resets to 0 after every paragraph, and its loop invariant states that it is 0 when each paragraph starts.
- The `count` of app.py has no effect on the page. `ReviewUpload` states its final value only when no call raised.
- The string-keyed `sorted_steps` of app_map_rerank.py:59 is left out. Its result is never read, and comparing `str` keys cannot raise, so leaving it out changes nothing on the page.
- PyInt.ParseInt: accepts ASCII digits only. Python's `int()` also accepts other Unicode decimal digits, which the scores of these prompts do not use. The digit limit is fixed at 4300, CPython 3.11's default: `sys.set_int_max_str_digits` and `PYTHONINTMAXSTRDIGITS` are not modelled, nor Python versions without the limit.
- Unused values are left out: `pages` in the three chain scripts, and `chunks` and `bytes_data` in app.py.
- Commented-out code is left out. This covers the pandas display, the old regex and the chunking loop of test_app.py.
- The "up to 5 unique issues" in map_reduce.py:75-78 is left out. It is an instruction to the model, and nothing in the code enforces it.
- Prompt.FieldNames: covers fields that are plain names, the only kind these templates use. It takes the whole text between braces as the name. Python's formatter splits off a `!conversion` or a `:format_spec`, and allows braces nested inside a spec.
- TestApp.ParseIsLeftmostMatch: does not itself state that the match starts at a line start. `TestApp.AnswerIsWholeLine` states that the answer is a whole line of the reply.
- The prompt texts of map_rerank.py and app_map_rerank.py are left out. Only the reply format they ask for (`MapRerank.FormatReply`) and the no-issue reply (`MapRerank.NoIssueReply`) are modelled; their field names are not checked.

## Findings

| source | as written | input that shows it | evidently intended | confidence | as-written member | corrected member |
|---|---|---|---|---|---|---|
| map_rerank.py:69 | `step["score"] != "0"` compares the captured text, which keeps the space after `Score:` | the prompt's own no-issue reply `Issue: None\nReason: None\nScore: 0` parses to score `" 0"`, which is displayed | hide steps whose score is 0, as the sort key `int(score)` reads it | not executed; high | MapRerank.NoIssueReplyDisplayed | MapRerank.IntendedRerankViewCards, MapRerank.IntendedHidesNoIssueReply |
| app_map_rerank.py:59-60 | `sorted_steps` is computed and never read; the loop walks `answer["intermediate_steps"]` | steps scored `" 10"` then `" 80"` are shown 10 first | display the steps sorted by score, highest first, as map_rerank.py:67-68 does; the corrected member sorts by map_rerank.py's `int()` key, not by the text key of app_map_rerank.py:59, which would put `" 9"` above `" 80"` | not executed; medium | AppMapRerank.UnsortedDisplayWitness | MapRerank.RerankViewCards, AppMapRerank.AgreesWhenAlreadyRanked |
