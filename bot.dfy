/**
  The quiz bot's answer selection: the Spark client, the free analyses (Hugging Face,
  then the keyword scorer) and the bot that cascades over them and keeps the session
  counters. Main.py and main2.py are two copies of this code under different names;
  they differ only in the wording of their prompts, which the bot is given.

  What the outside world answers is a parameter: `server` gives the websocket frames
  Spark sends for a list of messages, `endpoint` the text Hugging Face generates for a
  prompt (`None` when the request fails or its status is not 200), and a
  `BrowserOutcome` what the quiz page does.
*/
module Bot {
  import opened Wrappers
  import opened Text
  import opened Seqs
  import opened Keywords
  import opened Labels
  import opened Prompts
  import opened Stream
  import opened MethodTally

  /** The article, question and option texts read from the quiz page. */
  datatype Page = Page(article: string, question: string, options: seq<string>)

  /**
    What the browser does while one question is answered: how many answer cards are on
    screen, whether clicking the chosen card and submitting succeed, and whether the
    page then shows the answer as correct.
  */
  datatype BrowserOutcome = BrowserOutcome(cardsOnScreen: nat, clickOk: bool, submitOk: bool, judgedCorrect: bool)

  /** The statistics the bot reports, without the accuracy percentage. */
  datatype Statistics = Statistics(totalQuestions: nat, correctAnswers: nat, methodsUsed: map<string, nat>)

  /** What the cascade returns (`None` where it raises) and the names it records. */
  datatype Decision = Decision(choice: Option<int>, recorded: seq<string>)

  const SparkName: string := "SparkAI"
  const HuggingFaceName: string := "HuggingFace"
  const KeywordName: string := "Keyword"

  /** The page can be answered: article, question and options are all truthy, and there are at least two options. */
  predicate Complete(page: Option<Page>) {
    page.Some? && page.value.article != "" && page.value.question != "" && |page.value.options| >= 2
  }

  /** A Python string that is truthy: neither `None` nor empty. */
  predicate Truthy(s: Option<string>) {
    s.Some? && s.value != ""
  }

  // ---------------------------------------------------------------- what each analysis yields

  /** The option the Hugging Face analysis names, -1 when its request fails or names none. */
  function HfChoice(w: Wording, article: string, question: string, options: seq<string>,
                    endpoint: string -> Option<string>): int
  {
    match endpoint(HfPrompt(w, article, question, options))
    case None => -1
    case Some(text) => ParseLabel(text, |options|)
  }

  /** The one user message the Spark analysis sends. */
  function SparkMessages(w: Wording, article: string, question: string, options: seq<string>): seq<Message> {
    [Message("user", SparkPrompt(w, article, question, options))]
  }

  /** The option the Spark analysis names, -1 when its reply names none. */
  function SparkChoice(w: Wording, article: string, question: string, options: seq<string>,
                       server: seq<Message> -> seq<Frame>): int
  {
    ParseLabel(Reply(server(SparkMessages(w, article, question, options))), |options|)
  }

  /** The free analysis: Hugging Face when a token is set and it names an option, else the keyword scorer. */
  function FreeApiChoice(hasToken: bool, w: Wording, article: string, question: string, options: seq<string>,
                         endpoint: string -> Option<string>): Option<int>
  {
    var hf := HfChoice(w, article, question, options, endpoint);
    if hasToken && hf != -1 then Some(hf) else KeywordPick(article, question, options)
  }

  /** The cascade: Spark when configured and it names an option, else the free analysis, else the keyword scorer. */
  function Decide(sparkConfigured: bool, hasToken: bool, w: Wording, article: string, question: string,
                  options: seq<string>, server: seq<Message> -> seq<Frame>,
                  endpoint: string -> Option<string>): Decision
  {
    var spark := SparkChoice(w, article, question, options, server);
    if sparkConfigured && spark != -1 then Decision(Some(spark), [SparkName])
    else match FreeApiChoice(hasToken, w, article, question, options, endpoint)
      case None => Decision(None, [])
      case Some(c) =>
        if c != -1 then Decision(Some(c), [HuggingFaceName])
        else Decision(KeywordPick(article, question, options), [KeywordName])
  }

  /** With at least one option the free analysis always names an option, never -1. */
  lemma FreeApiInRange(hasToken: bool, w: Wording, article: string, question: string, options: seq<string>,
                       endpoint: string -> Option<string>)
    requires options != []
    ensures var r := FreeApiChoice(hasToken, w, article, question, options, endpoint);
      r.Some? && 0 <= r.value < |options|
  {
  }

  /**
    Without options Spark and Hugging Face name nothing and the keyword scorer raises:
    the cascade records nothing.
  */
  lemma DecideWithoutOptions(sparkConfigured: bool, hasToken: bool, w: Wording, article: string, question: string,
                             server: seq<Message> -> seq<Frame>, endpoint: string -> Option<string>)
    ensures Decide(sparkConfigured, hasToken, w, article, question, [], server, endpoint) == Decision(None, [])
  {
  }

  /**
    With at least one option the cascade records exactly one name and returns an option
    index: "SparkAI" exactly when Spark is configured and names an option, "HuggingFace"
    otherwise, even when the keyword scorer made the choice; "Keyword" never.
  */
  lemma DecideRecordsOne(sparkConfigured: bool, hasToken: bool, w: Wording, article: string, question: string,
                         options: seq<string>, server: seq<Message> -> seq<Frame>,
                         endpoint: string -> Option<string>)
    requires options != []
    ensures var d := Decide(sparkConfigured, hasToken, w, article, question, options, server, endpoint);
      var spark := SparkChoice(w, article, question, options, server);
      && d.choice.Some? && 0 <= d.choice.value < |options|
      && |d.recorded| == 1
      && (d.recorded[0] == SparkName <==> sparkConfigured && spark != -1)
      && (d.recorded[0] == HuggingFaceName <==> !(sparkConfigured && spark != -1))
      && (sparkConfigured && spark != -1 ==> d.choice == Some(spark))
      && (!(sparkConfigured && spark != -1) ==>
            d.choice == FreeApiChoice(hasToken, w, article, question, options, endpoint))
  {
    FreeApiInRange(hasToken, w, article, question, options, endpoint);
  }

  // ---------------------------------------------------------------- the Spark client

  class SparkAI {
    const appid: string
    const apiKey: string
    const apiSecret: string
    const url: string
    var answer: string
    var answerReceived: bool
    var messages: seq<Message>

    constructor (appid: string, apiKey: string, apiSecret: string)
      ensures this.appid == appid && this.apiKey == apiKey && this.apiSecret == apiSecret
      ensures url == "wss://spark-api.xf-yun.com/v3.5/chat"
      ensures answer == "" && !answerReceived && messages == []
    {
      this.appid, this.apiKey, this.apiSecret := appid, apiKey, apiSecret;
      url := "wss://spark-api.xf-yun.com/v3.5/chat";
      answer, answerReceived, messages := "", false, [];
    }

    /**
      The websocket message handler. An error frame changes nothing and closes the
      socket; a successful frame appends its text, and the last one of an answer marks
      the answer received and closes the socket. Returns whether the socket is closed.
    */
    method OnMessage(f: Frame) returns (closed: bool)
      modifies this
      ensures f.code != 0 ==> answer == old(answer) && answerReceived == old(answerReceived)
      ensures f.code == 0 ==> answer == old(answer) + f.content
      ensures f.code == 0 ==> (answerReceived <==> old(answerReceived) || f.status == LastStatus)
      ensures Reception(answer, answerReceived) == Receive(Reception(old(answer), old(answerReceived)), f)
      ensures closed == Closes(f)
      ensures messages == old(messages)
    {
      if f.code != 0 {
        closed := true;
      } else {
        answer := answer + f.content;
        closed := false;
        if f.status == LastStatus {
          answerReceived := true;
          closed := true;
        }
      }
    }

    /**
      One chat request: the state is reset, the handler runs over the frames the server
      sends until the socket closes, and the collected text is returned stripped, also
      when no frame completed the answer.
    */
    method ChatCompletion(msgs: seq<Message>, server: seq<Message> -> seq<Frame>) returns (reply: string)
      modifies this
      ensures messages == msgs
      ensures Reception(answer, answerReceived) == Deliver(Start, server(msgs))
      ensures reply == Strip(answer)
      ensures reply == Reply(server(msgs))
    {
      messages := msgs;
      answer := "";
      answerReceived := false;
      var frames := server(msgs);
      var k := 0;
      var open := true;
      while open && k < |frames|
        invariant 0 <= k <= |frames|
        invariant messages == msgs
        invariant Deliver(Reception(answer, answerReceived), if open then frames[k..] else []) == Deliver(Start, frames)
        decreases |frames| - k
      {
        assert frames[k..][1..] == frames[k + 1..];
        var closed := OnMessage(frames[k]);
        open := !closed;
        k := k + 1;
      }
      reply := Strip(answer);
    }
  }

  // ---------------------------------------------------------------- the free analyses

  class FreeApiAnalysis {
    const huggingfaceToken: Option<string>
    const wording: Wording

    constructor (huggingfaceToken: Option<string>, wording: Wording)
      ensures this.huggingfaceToken == huggingfaceToken && this.wording == wording
    {
      this.huggingfaceToken := huggingfaceToken;
      this.wording := wording;
    }

    /** Asks Hugging Face and returns the first option, in option order, whose label its reply holds; -1 otherwise. */
    method AnalyzeWithHuggingface(article: string, question: string, options: seq<string>,
                                  endpoint: string -> Option<string>) returns (r: int)
      ensures r == HfChoice(wording, article, question, options, endpoint)
      ensures -1 <= r < |options|
    {
      var prompt := HfPrompt(wording, article, question, options);
      var response := endpoint(prompt);
      r := -1;
      if response.Some? {
        var answerText := response.value;
        var i := 0;
        while i < |options|
          invariant 0 <= i <= |options|
          invariant forall j :: 0 <= j < i ==> !HasLabel(answerText, j)
        {
          if Contains(answerText, Decimal(i + 1)) {
            ParseLabelFound(answerText, |options|, i);
            r := i;
            break;
          }
          i := i + 1;
        }
      }
    }

    /**
      The score of one option: two points per important word among its words, ten when
      it occurs verbatim in the article, and for a detail question three per
      `.`-separated piece of the article that mentions one of its words.
    */
    method ScoreOption(articleLower: string, questionLower: string, importantWords: set<string>, option: string)
      returns (score: int)
      ensures score == OverlapPoints(Lower(option), importantWords)
                       + VerbatimPoints(Lower(option), articleLower)
                       + DetailPoints(articleLower, questionLower, Lower(option))
    {
      score := 0;
      var optionLower := Lower(option);
      var optionWords := OptionWords(optionLower);
      var commonWords := optionWords * importantWords;
      score := score + |commonWords| * OverlapWeight;
      if Contains(articleLower, optionLower) {
        score := score + VerbatimBonus;
      }
      ghost var base := score;
      if IsDetailQuestion(questionLower) {
        var sentences := Split(articleLower, '.');
        var k := 0;
        while k < |sentences|
          invariant 0 <= k <= |sentences|
          invariant score == base + MentionPoints(sentences[..k], optionWords)
        {
          MentionPointsStep(sentences, k, optionWords);
          if Mentions(sentences[k], optionWords) {
            score := score + SentenceBonus;
          }
          k := k + 1;
        }
        assert sentences[..k] == sentences;
      }
    }

    /**
      The keyword scorer: each option's score, then the lowest index of the highest
      score; `None` without options, where `max` of the empty score list raises.
    */
    method AnalyzeWithKeywords(article: string, question: string, options: seq<string>) returns (r: Option<int>)
      ensures r == KeywordPick(article, question, options)
    {
      var articleLower := Lower(article);
      var questionLower := Lower(question);
      var importantWords := ImportantWords(articleLower);
      var scores: seq<int> := [];
      ghost var expected := ScoreVector(article, question, options);
      var i := 0;
      while i < |options|
        invariant 0 <= i <= |options|
        invariant scores == expected[..i]
      {
        var score := ScoreOption(articleLower, questionLower, importantWords, options[i]);
        assert score == expected[i];
        TakeOneMore(expected, i);
        scores := scores + [score];
        i := i + 1;
      }
      if scores == [] {
        return None;
      }
      assert scores == expected;
      r := Some(FirstArgMax(scores) as int);
    }

    /** Hugging Face first when a token is set; the keyword scorer when it is not or names no option. */
    method AnalyzeWithFreeApi(article: string, question: string, options: seq<string>,
                              endpoint: string -> Option<string>) returns (r: Option<int>)
      ensures r == FreeApiChoice(Truthy(huggingfaceToken), wording, article, question, options, endpoint)
    {
      if Truthy(huggingfaceToken) {
        var result := AnalyzeWithHuggingface(article, question, options, endpoint);
        if result != -1 {
          return Some(result);
        }
      }
      r := AnalyzeWithKeywords(article, question, options);
    }
  }

  // ---------------------------------------------------------------- the bot

  class HybridReadTheoryBot {
    const sparkAppid: Option<string>
    const sparkApiKey: Option<string>
    const sparkApiSecret: Option<string>
    const wording: Wording
    const freeAnalyzer: FreeApiAnalysis
    const sparkClient: SparkAI?
    var questionsAnswered: nat
    var correctAnswers: nat
    var analysisMethodsUsed: seq<string>

    /**
      Between questions no more answers are correct than were answered, no more were
      answered than analyses recorded, and every recorded name is "SparkAI" or "HuggingFace".
      Both analysers word their prompts alike.
    */
    predicate Valid()
      reads this
    {
      && freeAnalyzer.wording == wording
      && correctAnswers <= questionsAnswered <= |analysisMethodsUsed|
      && forall i :: 0 <= i < |analysisMethodsUsed| ==>
           analysisMethodsUsed[i] == SparkName || analysisMethodsUsed[i] == HuggingFaceName
    }

    /** The Spark client exists exactly when all three of its credentials are truthy. */
    constructor (sparkAppid: Option<string>, sparkApiKey: Option<string>, sparkApiSecret: Option<string>,
                 huggingfaceToken: Option<string>, wording: Wording)
      ensures this.sparkAppid == sparkAppid && this.sparkApiKey == sparkApiKey && this.sparkApiSecret == sparkApiSecret
      ensures this.wording == wording
      ensures fresh(freeAnalyzer) && freeAnalyzer.huggingfaceToken == huggingfaceToken && freeAnalyzer.wording == wording
      ensures sparkClient != null <==> Truthy(sparkAppid) && Truthy(sparkApiKey) && Truthy(sparkApiSecret)
      ensures sparkClient != null ==> fresh(sparkClient) && sparkClient.answer == "" && !sparkClient.answerReceived
      ensures sparkClient != null ==>
        sparkClient.appid == sparkAppid.value && sparkClient.apiKey == sparkApiKey.value
        && sparkClient.apiSecret == sparkApiSecret.value
      ensures questionsAnswered == 0 && correctAnswers == 0 && analysisMethodsUsed == []
      ensures Valid()
    {
      this.sparkAppid, this.sparkApiKey, this.sparkApiSecret := sparkAppid, sparkApiKey, sparkApiSecret;
      this.wording := wording;
      freeAnalyzer := new FreeApiAnalysis(huggingfaceToken, wording);
      if Truthy(sparkAppid) && Truthy(sparkApiKey) && Truthy(sparkApiSecret) {
        sparkClient := new SparkAI(sparkAppid.value, sparkApiKey.value, sparkApiSecret.value);
      } else {
        sparkClient := null;
      }
      questionsAnswered, correctAnswers, analysisMethodsUsed := 0, 0, [];
    }

    /** Asks Spark (when configured) and returns the first option whose label its stripped reply holds; -1 otherwise. */
    method AnalyzeWithSpark(article: string, question: string, options: seq<string>,
                            server: seq<Message> -> seq<Frame>) returns (r: int)
      modifies sparkClient
      ensures sparkClient == null ==> r == -1
      ensures sparkClient != null ==> r == SparkChoice(wording, article, question, options, server)
      ensures sparkClient != null ==>
        && sparkClient.messages == SparkMessages(wording, article, question, options)
        && Reception(sparkClient.answer, sparkClient.answerReceived)
           == Deliver(Start, server(SparkMessages(wording, article, question, options)))
    {
      if sparkClient == null {
        return -1;
      }
      var truncatedArticle := Truncate(article, SparkArticleLimit);
      var prompt := Render(wording.spark, truncatedArticle, question, OptionBlock(options));
      var messages := [Message("user", prompt)];
      assert messages == SparkMessages(wording, article, question, options);
      var answer := sparkClient.ChatCompletion(messages, server);
      r := -1;
      var i := 0;
      while i < |options|
        invariant 0 <= i <= |options|
        invariant forall j :: 0 <= j < i ==> !HasLabel(answer, j)
      {
        if Contains(answer, Decimal(i + 1)) {
          ParseLabelFound(answer, |options|, i);
          r := i;
          break;
        }
        i := i + 1;
      }
    }

    /**
      The cascade over the analyses: returns what `Decide` says and records its one name;
      the counters do not change. A configured Spark client is always asked, so it ends up
      holding what it received for this question's prompt.
    */
    method SmartAnalysis(article: string, question: string, options: seq<string>,
                         server: seq<Message> -> seq<Frame>, endpoint: string -> Option<string>)
      returns (r: Option<int>)
      requires Valid()
      modifies this, sparkClient
      ensures Valid()
      ensures var d := Decide(sparkClient != null, Truthy(freeAnalyzer.huggingfaceToken), wording,
                              article, question, options, server, endpoint);
        r == d.choice && analysisMethodsUsed == old(analysisMethodsUsed) + d.recorded
      ensures questionsAnswered == old(questionsAnswered) && correctAnswers == old(correctAnswers)
      ensures sparkClient != null ==>
        && sparkClient.messages == SparkMessages(wording, article, question, options)
        && Reception(sparkClient.answer, sparkClient.answerReceived)
           == Deliver(Start, server(SparkMessages(wording, article, question, options)))
    {
      if sparkClient != null {
        var sparkResult := AnalyzeWithSpark(article, question, options, server);
        if sparkResult != -1 {
          analysisMethodsUsed := analysisMethodsUsed + [SparkName];
          return Some(sparkResult);
        }
      }
      var freeApiResult := freeAnalyzer.AnalyzeWithFreeApi(article, question, options, endpoint);
      if freeApiResult.None? {
        return None;
      }
      FreeApiInRange(Truthy(freeAnalyzer.huggingfaceToken), wording, article, question, options, endpoint);
      if freeApiResult.value != -1 {
        analysisMethodsUsed := analysisMethodsUsed + [HuggingFaceName];
        return freeApiResult;
      }
      assert false;
    }

    /**
      Submits the chosen answer; a correct judgement counts one more correct answer.
      Its one caller, AnswerQuestion, then counts the question as answered, which
      restores Valid(); in between there is at most one correct answer too many.
    */
    method SubmitAnswer(browser: BrowserOutcome) returns (ok: bool)
      requires Valid()
      modifies this
      ensures correctAnswers <= questionsAnswered + 1
      ensures ok == browser.submitOk
      ensures correctAnswers == old(correctAnswers) + (if browser.submitOk && browser.judgedCorrect then 1 else 0)
      ensures questionsAnswered == old(questionsAnswered) && analysisMethodsUsed == old(analysisMethodsUsed)
    {
      if !browser.submitOk {
        return false;
      }
      if browser.judgedCorrect {
        correctAnswers := correctAnswers + 1;
      }
      return true;
    }

    /**
      Answers one question. An incomplete page (no article, question or options, or fewer
      than two options) changes nothing. Otherwise the cascade records one name, and the
      question counts as answered exactly when the chosen card is on screen and both the
      click and the submission succeed. The Spark client, when there is one, ends up holding
      what it received for this question's prompt; an incomplete page leaves it untouched.
    */
    method AnswerQuestion(page: Option<Page>, server: seq<Message> -> seq<Frame>,
                          endpoint: string -> Option<string>, browser: BrowserOutcome) returns (ok: bool)
      requires Valid()
      modifies this, sparkClient
      ensures Valid()
      ensures !Complete(page) ==> !ok && analysisMethodsUsed == old(analysisMethodsUsed)
      ensures Complete(page) ==>
        var d := Decide(sparkClient != null, Truthy(freeAnalyzer.huggingfaceToken), wording,
                        page.value.article, page.value.question, page.value.options, server, endpoint);
        && analysisMethodsUsed == old(analysisMethodsUsed) + d.recorded
        && |d.recorded| == 1
        && d.choice.Some?
        && (ok <==> d.choice.value < browser.cardsOnScreen && browser.clickOk && browser.submitOk)
      ensures questionsAnswered == old(questionsAnswered) + (if ok then 1 else 0)
      ensures correctAnswers == old(correctAnswers) + (if ok && browser.judgedCorrect then 1 else 0)
      ensures sparkClient != null && !Complete(page) ==> unchanged(sparkClient)
      ensures sparkClient != null && Complete(page) ==>
        var msgs := SparkMessages(wording, page.value.article, page.value.question, page.value.options);
        sparkClient.messages == msgs
        && Reception(sparkClient.answer, sparkClient.answerReceived) == Deliver(Start, server(msgs))
    {
      if !Complete(page) {
        return false;
      }
      var article, question, options := page.value.article, page.value.question, page.value.options;
      DecideRecordsOne(sparkClient != null, Truthy(freeAnalyzer.huggingfaceToken), wording,
                       article, question, options, server, endpoint);
      var bestOptionIndex := SmartAnalysis(article, question, options, server, endpoint);
      ok := false;
      if bestOptionIndex.value < browser.cardsOnScreen && browser.clickOk {
        var submitted := SubmitAnswer(browser);
        if submitted {
          questionsAnswered := questionsAnswered + 1;
          ok := true;
        }
      }
    }

    /**
      The statistics: the two counters and the number of times each analysis name was
      recorded. The counts add up to the number of recorded names, and "Keyword" is
      never among them.
    */
    method GetStatistics() returns (stats: Statistics)
      requires Valid()
      ensures stats.totalQuestions == questionsAnswered && stats.correctAnswers == correctAnswers
      ensures stats.methodsUsed == Tally(analysisMethodsUsed)
      ensures stats.correctAnswers <= stats.totalQuestions <= |analysisMethodsUsed|
      ensures SumOver(stats.methodsUsed, Distinct(analysisMethodsUsed)) == |analysisMethodsUsed|
      ensures forall name :: name in stats.methodsUsed ==> name == SparkName || name == HuggingFaceName
    {
      var methodCount: map<string, nat> := map[];
      var i := 0;
      while i < |analysisMethodsUsed|
        invariant 0 <= i <= |analysisMethodsUsed|
        invariant methodCount == Tally(analysisMethodsUsed[..i])
      {
        var name := analysisMethodsUsed[i];
        assert analysisMethodsUsed[..i + 1] == analysisMethodsUsed[..i] + [name];
        TallySnoc(analysisMethodsUsed[..i], name);
        methodCount := Bump(methodCount, name);
        i := i + 1;
      }
      assert analysisMethodsUsed[..i] == analysisMethodsUsed;
      TallySum(analysisMethodsUsed);
      stats := Statistics(questionsAnswered, correctAnswers, methodCount);
    }
  }
}
