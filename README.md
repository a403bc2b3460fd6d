# Answer selection of the ReadTheory quiz bot, in Dafny

This project models how the quiz bot picks an answer. The bot reads an article, a
question and its options from a quiz page, then asks three analyses in turn:

- the Spark chat model, over a websocket;
- a Hugging Face text-generation endpoint;
- a local keyword scorer.

It clicks the chosen option, submits, and keeps session counters. `Main.py` and
`main2.py` are two copies of the same program under different identifiers and
slightly different prompt wording. The model is written once and takes the
wording as a parameter. The two copies' wordings are `Prompts.MainPyWording` and
`Prompts.Main2PyWording`.

Modules:

- `Text`: the string primitives the bot uses, over ASCII. These are `str.lower()`,
  the tokens of `re.findall(r'\b\w+\b', s)`, `t in s`, `s.split('.')`, `'\n'.join`,
  `str.strip()` and `str(n)`.
- `Seqs`: first occurrences, the distinct elements of a list in first-occurrence
  order (the key order of a `Counter`), and `scores.index(max(scores))`.
- `Keywords`: the keyword scorer's specification.
  - The stopword filter.
  - `Counter.most_common(20)` as repeated selection. The highest count is taken
    first, and equal counts are ordered by first occurrence.
  - The three score terms and the chosen index.
- `Labels`: the reply parser both remote analyses use. Option `i` is labelled
  `str(i + 1)`. The first option, in option order, whose label occurs anywhere in
  the reply wins; no label gives -1.
- `Prompts`: the two prompts. Each holds a prefix of the article (800 or 3000
  characters), the question, and one line `"{i+1}. {option}"` per option.
- `Stream`: the Spark client's reception of one streamed answer, as a fold over the
  frames the server sends.
- `MethodTally`: the per-method count the statistics report.
- `Bot`: the classes `SparkAI`, `FreeApiAnalysis` and `HybridReadTheoryBot`. Their
  fields and loops follow the source, and each method is proved against the
  specification functions above. The cascade itself is the function `Bot.Decide`.

The outside world is a parameter:

- the Spark server is a function from the messages sent to the frames it streams
  back;
- the Hugging Face endpoint is a function from the prompt to `Some(generated_text)`,
  or to `None` when the status is not 200 or the call raises;
- what the browser does while one question is answered is a `BrowserOutcome`;
- the page content is an `Option<Page>`.

Where the code does something other than one might expect, the model follows the
code:

- Only digit labels are parsed, so a reply "The answer is B." names no option.
- Labels are tried in option order, not text order, and by substring. So "2 or 1"
  names the first option and, with ten options, "10" names the first option too.
- Once Spark fails, the cascade records "HuggingFace" even when the keyword scorer
  made the choice. `analyze_with_free_api` never returns -1 for a non-empty option
  list, so the "Keyword" branch is never taken. The model proves that branch dead.
- There is no TF-IDF or cosine-similarity scorer, no weighting by inverse frequency,
  no "main idea" bonus and no question classifier in these files. The scorer keeps
  at most 20 important words (exactly 20 when the article has that many distinct
  candidates) and adds 3 points per `.`-separated piece that contains
  any option word as a substring.
- Both copies cut the article to 3000 characters for Spark (`main2.py:358` reads
  `content[:3000]`).
- With no options, `max([])` raises inside the keyword scorer. The model returns
  `None` there, and the cascade records nothing. `answer_question` never gets there,
  because it requires at least two options.

The model cites `Main.py`. Its counterparts in `main2.py` are:

| Main.py | main2.py |
|---|---|
| `SparkAI.on_message`, lines 67-84 | `SparkAI.handle_message`, lines 62-79 |
| `SparkAI.chat_completion`, lines 121-153 | `SparkAI.get_completion`, lines 115-145 |
| `analyze_with_huggingface`, lines 161-208 | `hf_analysis`, lines 153-198 |
| `analyze_with_keywords`, lines 210-249 | `keyword_based_analysis`, lines 200-234 |
| the Hugging Face prompt, lines 168-179 | the Hugging Face prompt, lines 159-170 |
| the important words, lines 217-220 | the key terms, lines 206-209 |
| the option scores, lines 224-242 | the option points, lines 213-227 |
| the Spark prompt, lines 383-396 | the Spark prompt, lines 358-371 |
| `analyze_with_free_api`, lines 251-260 | `free_analysis`, lines 236-243 |
| `HybridReadTheoryBot.__init__`, lines 265-282 | `HybridReadTheoryBot.__init__`, lines 248-265 |
| `analyze_with_spark`, lines 376-418 | `spark_analysis`, lines 352-392 |
| `smart_analysis`, lines 420-445 | `decide_answer`, lines 394-416 |
| `answer_question`, lines 447-477 | `process_question`, lines 418-444 |
| `submit_answer`, lines 479-497 | `send_answer`, lines 446-463 |
| `get_statistics`, lines 540-555 | `collect_stats`, lines 503-518 |

## Model

| member | source | states |
|---|---|---|
| Text.Lower | Main.py:213-214 | `str.lower()` keeps the length, leaves no capital letter, maps each capital to its small letter and leaves every other character as it was |
| Text.WordsCount | Main.py:218 | `re.findall(r'\b\w+\b', s)` lists each string as many times as it occurs in `s` as a maximal run of word characters (non-empty, no word character just before or just after); the count is MatchCount, defined position by position independently of the tokenizer |
| Text.WordsMatch | main2.py:207 | a string is among the tokens exactly when it occurs somewhere in the text as such a maximal run of word characters |
| Text.ContainsAt | Main.py:234 | `t in s` holds exactly when `t` is the slice of `s` at some position |
| Text.Split | Main.py:240 | `s.split('.')` always yields at least one piece |
| Text.SplitPieces | Main.py:240 | `s.split(sep)` has one piece more than `s` has separators, and no piece contains the separator |
| Text.JoinSplit | Main.py:240 | joining the pieces of `s.split(sep)` with `sep` gives back `s` |
| Text.SplitJoin | Main.py:176 | splitting a newline join of newline-free lines gives back the lines |
| Text.SkipSpace | Main.py:153 | the first non-whitespace index from `i`, with only whitespace skipped |
| Text.SkipSpaceBack | Main.py:153 | the end of a slice once trailing whitespace is dropped, with only whitespace dropped |
| Text.Strip | Main.py:153 | `strip()` returns a slice of the input, everything outside it is whitespace, and it neither starts nor ends with whitespace |
| Text.StripKeepsOccurrences | Main.py:153 | stripping neither hides nor creates an occurrence of a whitespace-free string |
| Text.Decimal | Main.py:200 | `str(n)` is one or more digits, a single digit exactly when `n < 10`, with no leading zero |
| Text.DecimalRoundTrip | Main.py:176 | reading back the digits of `str(n)` gives `n` |
| Seqs.FirstIndex | Main.py:219 | the position of the first occurrence of `x`: it holds `x` and no earlier position does |
| Seqs.Distinct | Main.py:219 | the keys of a `Counter` over a list are exactly its elements, each once |
| Seqs.DistinctInFirstOccurrenceOrder | Main.py:219 | `Counter` keys are listed in the order of their first occurrence in the list |
| Seqs.CardinalityOfDistinct | Main.py:220 | a list without duplicates has as many elements as its set |
| Seqs.FirstArgMax | Main.py:247 | `scores.index(max(scores))`: every score is at most the chosen one and every earlier score is strictly smaller |
| Keywords.Candidates | Main.py:217-219 | the filtered tokens are tokens of the article that are not stopwords and are longer than two characters, and each such word keeps its count |
| Keywords.CandidateKept | Main.py:219 | a token that passes the filter is among the filtered tokens |
| Keywords.CandidateOrder | Main.py:219 | the filter keeps the relative order of the first occurrences of two candidate words, in both directions |
| Keywords.Best | Main.py:220 | the best-ranked index of a pool: it ranks ahead of every other index of the pool, and there is none only for an empty pool |
| Keywords.Select | Main.py:220 | selection takes `min(n, size of the pool)` distinct indices from the pool |
| Keywords.SelectRanked | Main.py:220 | each selected index ranks ahead of every later one and of every one left in the pool |
| Keywords.Picked | Main.py:220 | `most_common(n)` picks `min(n, distinct words)` positions among the distinct words |
| Keywords.MostCommonRanked | Main.py:220 | `most_common(n)` lists `min(n, distinct)` distinct words of the list. Each has a higher count than every later one and every word left out, or an equal count and an earlier first occurrence |
| Keywords.MostCommonOrdered | Main.py:220 | the listed words are words of the list, pairwise distinct, in descending count with first-occurrence tie-break |
| Keywords.MostCommonAheadOfLeftOut | Main.py:220 | every listed word ranks ahead of every word of the list that is left out |
| Keywords.ImportantWordsCount | Main.py:220 | there are exactly 20 important words, or every distinct candidate when there are fewer, and never more than 20 |
| Keywords.ImportantWordsAreCandidates | Main.py:217-220 | each important word is a token of the article, not a stopword and longer than two characters |
| Keywords.ImportantWordsRankAhead | Main.py:217-220 | an important word occurs more often in the article than any candidate left out, or equally often and first |
| Keywords.MentionPoints | Main.py:240-242 | the sentence bonus is at most 3 points per sentence |
| Keywords.ScoreBound | Main.py:230-242 | a score is at most 2 per shared word for at most 20 words, plus 10, plus 3 for each of the `dots + 1` pieces of the article when the question is a detail question |
| Keywords.KeywordPick | Main.py:244-249 | `None` exactly for no options; otherwise an index in range whose score is the maximum, with every earlier score strictly smaller |
| Labels.Label | Main.py:176 | option `i`'s label `str(i + 1)` is a non-empty string of digits |
| Labels.FirstLabelFrom | Main.py:199-201 | the first option from `from` on whose label occurs in the reply, or -1 when none does |
| Labels.ParseLabel | Main.py:199-208 | -1 exactly when no label occurs; otherwise the smallest option whose label occurs |
| Labels.ParseLabelFound | Main.py:410-412 | the parse names option `i` when its label occurs and no earlier label does |
| Labels.SameLabelsSameParse | Main.py:410-414 | two replies in which the same labels occur parse alike |
| Labels.DigitFreeReply | Main.py:410-414 | a reply without digits names no option |
| Labels.StripKeepsParse | Main.py:153 | stripping the reply never changes the option it names |
| Labels.LabelRoundTrip | Main.py:394 | a reply that is exactly the label of one of the first nine options names that option, however many options there are |
| Labels.IndexOrderNotTextOrder | Main.py:410-412 | options are tried in index order: "2 or 1" names the first option |
| Labels.TenReadsAsOne | Main.py:199-201 | with ten options the reply "10" names the first option |
| Labels.LetterAnswerIgnored | main2.py:384-388 | the reply "The answer is B." names no option |
| Prompts.Truncate | Main.py:383 | `s[:limit]` is the prefix of `s` of length `min(len(s), limit)` |
| Prompts.ReadOptionLineRoundTrip | Main.py:176 | every option line reads back as its index and its option text |
| Prompts.OptionBlockRoundTrip | Main.py:394 | splitting the option block at newlines gives back the option lines, and line `i` reads back as option `i`, when no option holds a newline |
| Prompts.RenderEmbeds | Main.py:385-396 | a prompt holds the template's opening, then the article, the question and the option block, each at its place |
| Prompts.HfPromptEmbeds | Main.py:168-179 | the Hugging Face prompt holds exactly the first `min(len(article), 800)` characters of the article, and the option block after the question |
| Prompts.SparkPromptEmbeds | Main.py:383-396 | the Spark prompt holds exactly the first `min(len(article), 3000)` characters of the article, and the option block after the question |
| Stream.DeliveredPrefix | Main.py:67-84 | the frames the handler sees are a prefix of the stream; only the last may close the socket, and it does unless the stream ran out |
| Stream.DeliverCollects | Main.py:67-84 | handling a stream appends the text of its successful frames and sets the flag exactly when one of them has status 2 |
| Stream.ReceivedStays | Main.py:82-83 | once the answer is received it stays received |
| Stream.ErrorFirst | Main.py:72-74 | a stream that starts with an error frame leaves the empty answer and no flag |
| Stream.AfterCloseIgnored | Main.py:74-84 | frames after the first closing one change nothing |
| MethodTally.Tally | Main.py:546-548 | the reference count: each recorded name mapped to its number of occurrences, and no other key. GetStatistics' `get(name, 0) + 1` loop builds exactly this map (via TallySnoc), and TallySum shows its counts add up to the number of names |
| MethodTally.TallySnoc | Main.py:547-548 | counting one more name with `get(name, 0) + 1` builds the tally of the longer list |
| MethodTally.TallySum | main2.py:509-511 | the counts of the tally add up to the number of recorded names |
| Bot.FreeApiInRange | Main.py:251-260 | with at least one option the free analysis always names an option in range, never -1 |
| Bot.DecideWithoutOptions | Main.py:420-445 | without options the cascade returns nothing and records nothing |
| Bot.DecideRecordsOne | Main.py:420-445 | with options the cascade records exactly one name: "SparkAI" exactly when Spark is configured and names an option, "HuggingFace" otherwise; the choice is Spark's or the free analysis's, always in range |
| Bot.SparkAI.constructor | Main.py:28-34 | the client keeps its credentials, the v3.5 chat URL, an empty answer and no flag |
| Bot.SparkAI.OnMessage | Main.py:67-84 | an error frame changes neither field; a successful frame appends its text and sets the flag when its status is 2; the socket closes on either |
| Bot.SparkAI.ChatCompletion | Main.py:121-153 | the state is reset, the handler runs up to the first closing frame, and the stripped text is returned also when no frame completed the answer |
| Bot.FreeApiAnalysis.constructor | Main.py:158-159 | the analyser keeps its token |
| Bot.FreeApiAnalysis.AnalyzeWithHuggingface | Main.py:161-208 | the smallest option whose label occurs in the generated text; -1 when the request fails or no label occurs |
| Bot.FreeApiAnalysis.ScoreOption | Main.py:224-242 | an option's score is the overlap points, plus the verbatim bonus, plus the sentence points of a detail question |
| Bot.FreeApiAnalysis.AnalyzeWithKeywords | Main.py:210-249 | the scores loop builds the score list and returns its first arg-max, so the result is the keyword pick |
| Bot.FreeApiAnalysis.AnalyzeWithFreeApi | Main.py:251-260 | Hugging Face's choice when a token is set and it names an option, the keyword pick otherwise |
| Bot.HybridReadTheoryBot.constructor | Main.py:265-282 | a Spark client exists exactly when all three credentials are truthy, and the counters start at zero with no name recorded |
| Bot.HybridReadTheoryBot.AnalyzeWithSpark | Main.py:376-418 | -1 without a client; otherwise the smallest option whose label occurs in the stripped reply, for the one message holding the Spark prompt |
| Bot.HybridReadTheoryBot.SmartAnalysis | Main.py:420-445 | returns the cascade's choice and appends exactly the names it records, keeping the counters; a configured Spark client ends up holding the reception of this question's prompt |
| Bot.HybridReadTheoryBot.AnswerQuestion | Main.py:447-477 | an incomplete page changes nothing; otherwise one name is recorded, and the question counts as answered exactly when the card is on screen, the click works and the submission succeeds. A configured Spark client ends up holding the reception of this question's prompt, and an incomplete page leaves it unchanged |
| Bot.HybridReadTheoryBot.SubmitAnswer | Main.py:479-497 | a successful submission judged correct adds one correct answer; otherwise nothing changes; from a valid state, correct answers exceed answered questions by at most one until the caller counts the question |
| Bot.HybridReadTheoryBot.GetStatistics | Main.py:540-555 | the counters and the tally of recorded names. The counts add up to the number of names, correct ≤ answered ≤ names, and "Keyword" never appears |

## Left out

- Browser automation is left out: Selenium driver setup, login, clicking the next question and the run loop. Its outcomes enter as a `BrowserOutcome`.
- Content extraction (`extract_content` / `get_page_content`) is left out; its result enters as `Option<Page>`.
- The correctness check (`check_answer_correctness` / `check_result`) is left out; its verdict enters as `BrowserOutcome.judgedCorrect`.
- The websocket transport is left out: threads, `on_open`, `run_forever`, and the 30-second wait polled every 0.1 s. The frames the server sends before the wait ends are the input, and the handler processes them in order.
- `on_error` and `on_close` are left out; they only print.
- Exceptions raised inside the message handler or the analyses are not modelled. A failed Hugging Face request is `None`.
- The HTTP request, its headers, the JSON encoding and decoding, and the request body Spark receives (app id, domain, temperature, token limit) are left out. They are network I/O.
- The authentication URL (`create_url` / `build_auth_url`) is left out. It needs HMAC-SHA256, base64, URL encoding and the current date, which are foreign library calls plus a clock.
- The accuracy percentage and its `round` are left out, because they are floating point. `Statistics` carries the two counters and the tally.
- The random delays and every `time.sleep` are left out.
- Console input of the credentials and the quiz count is left out.
- Console output is left out, including the "Unknown" name `answer_question` prints when no method was recorded.
- Text.Lower: lowercases ASCII capitals only, because Unicode case mapping is outside the model.
- Text.Words: treats only ASCII letters, digits and `_` as `\w`, because the Unicode word class is outside the model.
- Text.Strip: strips ASCII whitespace only, because Unicode whitespace is outside the model.
- Bot.HybridReadTheoryBot.SmartAnalysis: the keyword branch of `smart_analysis` / `decide_answer` is left out. The model proves it cannot be reached, so it holds `assert false`.
- Keywords.MostCommon: models `Counter.most_common` by its specification, a selection by count with first-occurrence tie-break. It does not model the library's heap algorithm.
