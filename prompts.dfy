/**
  The prompts sent to the two remote models: a fixed wording around a prefix of the
  article, the question and one line per option, `"{i+1}. {option}"`, joined with
  newlines. The Hugging Face prompt keeps 800 characters of the article, the Spark
  prompt 3000.
*/
module Prompts {
  import opened Wrappers
  import opened Text
  import opened Labels

  const HfArticleLimit: nat := 800
  const SparkArticleLimit: nat := 3000

  /** `s[:limit]`: the prefix of `s` of length `min(len(s), limit)`. */
  function Truncate(s: string, limit: nat): (r: string)
    ensures |r| == if |s| < limit then |s| else limit
    ensures IsPrefix(r, s)
  {
    if |s| <= limit then s else s[..limit]
  }

  /** `f'{i+1}. {option}'` */
  function OptionLine(i: nat, option: string): string {
    Label(i) + ". " + option
  }

  function OptionLines(options: seq<string>): (lines: seq<string>)
    ensures |lines| == |options|
    ensures forall i :: 0 <= i < |options| ==> lines[i] == OptionLine(i, options[i])
  {
    seq(|options|, i requires 0 <= i < |options| => OptionLine(i, options[i]))
  }

  /** `chr(10).join(...)` over the option lines. */
  function OptionBlock(options: seq<string>): string {
    Join('\n', OptionLines(options))
  }

  /** Length of the run of decimal digits at the start of `s`. */
  function DigitRun(s: string): (n: nat)
    ensures n <= |s|
    ensures forall k :: 0 <= k < n ==> IsDigit(s[k])
    ensures n < |s| ==> !IsDigit(s[n])
    decreases |s|
  {
    if s == [] || !IsDigit(s[0]) then 0 else 1 + DigitRun(s[1..])
  }

  /** Reads an option line back: its number, then `". "`, then the option's text. */
  function ReadOptionLine(line: string): Option<(nat, string)> {
    var n := DigitRun(line);
    if n == 0 || |line| < n + 2 || line[n..n + 2] != ". " then None
    else
      var v := DecimalValue(line[..n]);
      if v == 0 then None else Some((v - 1, line[n + 2..]))
  }

  lemma {:induction false} DigitRunOfDigitsThen(p: string, q: string)
    requires forall k :: 0 <= k < |p| ==> IsDigit(p[k])
    requires q != [] && !IsDigit(q[0])
    ensures DigitRun(p + q) == |p|
    decreases |p|
  {
    if p != [] {
      assert (p + q)[1..] == p[1..] + q;
      DigitRunOfDigitsThen(p[1..], q);
    } else {
      assert p + q == q;
    }
  }

  /** Every option line reads back as its index and its option. */
  lemma ReadOptionLineRoundTrip(i: nat, option: string)
    ensures ReadOptionLine(OptionLine(i, option)) == Some((i, option))
  {
    var tag := Label(i);
    var line := OptionLine(i, option);
    assert line == tag + (". " + option);
    DigitRunOfDigitsThen(tag, ". " + option);
    assert line[..|tag|] == tag;
    assert line[|tag|..|tag| + 2] == ". ";
    assert line[|tag| + 2..] == option;
    DecimalRoundTrip(i + 1);
  }

  lemma OptionLineHasNoNewline(i: nat, option: string)
    requires '\n' !in option
    ensures '\n' !in OptionLine(i, option)
  {
    var tag, line := Label(i), OptionLine(i, option);
    forall k | 0 <= k < |line| ensures line[k] != '\n' {
      if k < |tag| {
        assert IsDigit(line[k]);
      } else if k >= |tag| + 2 {
        assert line[k] == option[k - |tag| - 2];
      }
    }
  }

  /**
    Splitting the option block at newlines gives back the option lines, and line `i`
    reads back as option `i`, when no option holds a newline.
  */
  lemma OptionBlockRoundTrip(options: seq<string>)
    requires |options| >= 1
    requires forall i :: 0 <= i < |options| ==> '\n' !in options[i]
    ensures Split(OptionBlock(options), '\n') == OptionLines(options)
    ensures forall i :: 0 <= i < |options| ==>
      ReadOptionLine(Split(OptionBlock(options), '\n')[i]) == Some((i, options[i]))
  {
    var lines := OptionLines(options);
    forall p | p in lines ensures '\n' !in p {
      var i :| 0 <= i < |lines| && lines[i] == p;
      OptionLineHasNoNewline(i, options[i]);
    }
    SplitJoin(lines, '\n');
    forall i | 0 <= i < |options| ensures ReadOptionLine(lines[i]) == Some((i, options[i])) {
      ReadOptionLineRoundTrip(i, options[i]);
    }
  }

  // ---------------------------------------------------------------- the prompts

  /** The fixed text of a prompt, around the article, the question and the option block. */
  datatype Template = Template(head: string, afterArticle: string, afterQuestion: string, tail: string)

  /** The wording of one copy of the bot: its Hugging Face prompt and its Spark prompt. */
  datatype Wording = Wording(huggingFace: Template, spark: Template)

  /** The wording of Main.py's two prompts (lines 169-179 and 385-396). */
  const MainPyWording: Wording := Wording(
    Template(
      "\n阅读以下文章并回答问题：\n\n文章: ",
      "\n\n问题: ",
      "\n\n选项:\n",
      "\n\n基于文章内容，正确答案是选项:\n"),
    Template(
      "请仔细阅读以下文章并回答问题。请严格基于文章内容选择最准确的答案。\n\n【文章内容】\n",
      "\n\n【问题】\n",
      "\n\n【选项】\n",
      "\n\n请仔细分析文章内容，选择最符合文章意思的选项。只返回选项数字（1, 2, 3, 或4），不要包含其他任何文字。"))

  /** The wording of main2.py's two prompts (lines 160-170 and 360-371). */
  const Main2PyWording: Wording := Wording(
    Template(
      "\n阅读下面的文章并回答问题：\n\n文章内容: ",
      "\n\n问题: ",
      "\n\n选项:\n",
      "\n\n根据文章，正确答案应该是选项:\n"),
    Template(
      "请阅读以下文章并回答问题。严格基于文章内容选择最准确的答案。\n\n【文章】\n",
      "\n\n【问题】\n",
      "\n\n【选项】\n",
      "\n\n请仔细分析文章，选择最符合文章意思的选项。只返回选项数字（1, 2, 3, 或4），不要包含其他文字。"))

  function Render(t: Template, article: string, question: string, block: string): string {
    t.head + article + t.afterArticle + question + t.afterQuestion + block + t.tail
  }

  /** The Hugging Face prompt: the article cut to 800 characters. */
  function HfPrompt(w: Wording, article: string, question: string, options: seq<string>): string {
    Render(w.huggingFace, Truncate(article, HfArticleLimit), question, OptionBlock(options))
  }

  /** The Spark prompt: the article cut to 3000 characters. */
  function SparkPrompt(w: Wording, article: string, question: string, options: seq<string>): string {
    Render(w.spark, Truncate(article, SparkArticleLimit), question, OptionBlock(options))
  }

  /** A slice that ends inside the left operand of a concatenation lies in that operand. */
  lemma SliceOfLeft(s: string, t: string, i: nat, j: nat)
    requires i <= j <= |s|
    ensures (s + t)[i..j] == s[i..j]
  {
    assert forall k :: i <= k < j ==> (s + t)[k] == s[k];
  }

  /** The right operand of a concatenation sits right after the left one. */
  lemma SliceOfRight(s: string, t: string)
    ensures (s + t)[|s|..|s| + |t|] == t
  {
    assert forall k :: 0 <= k < |t| ==> (s + t)[|s| + k] == t[k];
  }

  /** A rendered prompt holds the article, the question and the option block, each at its place. */
  lemma RenderEmbeds(t: Template, article: string, question: string, block: string)
    ensures var p := Render(t, article, question, block);
      var a := |t.head|;
      var q := a + |article| + |t.afterArticle|;
      var b := q + |question| + |t.afterQuestion|;
      && |p| == b + |block| + |t.tail|
      && p[..a] == t.head
      && p[a..a + |article|] == article
      && p[q..q + |question|] == question
      && p[b..b + |block|] == block
  {
    var x1 := t.head;
    var x2 := x1 + article;
    var x3 := x2 + t.afterArticle;
    var x4 := x3 + question;
    var x5 := x4 + t.afterQuestion;
    var x6 := x5 + block;
    var p := x6 + t.tail;
    assert p == Render(t, article, question, block);
    // the option block
    SliceOfRight(x5, block);
    SliceOfLeft(x6, t.tail, |x5|, |x6|);
    // the question
    SliceOfRight(x3, question);
    SliceOfLeft(x4, t.afterQuestion, |x3|, |x4|);
    SliceOfLeft(x5, block, |x3|, |x4|);
    SliceOfLeft(x6, t.tail, |x3|, |x4|);
    // the article
    SliceOfRight(x1, article);
    SliceOfLeft(x2, t.afterArticle, |x1|, |x2|);
    SliceOfLeft(x3, question, |x1|, |x2|);
    SliceOfLeft(x4, t.afterQuestion, |x1|, |x2|);
    SliceOfLeft(x5, block, |x1|, |x2|);
    SliceOfLeft(x6, t.tail, |x1|, |x2|);
    // the head
    SliceOfLeft(x1, article, 0, |x1|);
    SliceOfLeft(x2, t.afterArticle, 0, |x1|);
    SliceOfLeft(x3, question, 0, |x1|);
    SliceOfLeft(x4, t.afterQuestion, 0, |x1|);
    SliceOfLeft(x5, block, 0, |x1|);
    SliceOfLeft(x6, t.tail, 0, |x1|);
    assert x1[0..|x1|] == x1;
    assert p[..|x1|] == p[0..|x1|];
  }

  /**
    The Hugging Face prompt holds exactly the first `min(len(article), 800)` characters
    of the article, right after the template's opening, and the option block after the
    question.
  */
  lemma HfPromptEmbeds(w: Wording, article: string, question: string, options: seq<string>)
    ensures var t, p := w.huggingFace, HfPrompt(w, article, question, options);
      var k := if |article| < HfArticleLimit then |article| else HfArticleLimit;
      var b := |t.head| + k + |t.afterArticle| + |question| + |t.afterQuestion|;
      && p[|t.head|..|t.head| + k] == article[..k]
      && p[b..b + |OptionBlock(options)|] == OptionBlock(options)
  {
    RenderEmbeds(w.huggingFace, Truncate(article, HfArticleLimit), question, OptionBlock(options));
  }

  /**
    The Spark prompt holds exactly the first `min(len(article), 3000)` characters of the
    article, right after the template's opening, and the option block after the question.
  */
  lemma SparkPromptEmbeds(w: Wording, article: string, question: string, options: seq<string>)
    ensures var t, p := w.spark, SparkPrompt(w, article, question, options);
      var k := if |article| < SparkArticleLimit then |article| else SparkArticleLimit;
      var b := |t.head| + k + |t.afterArticle| + |question| + |t.afterQuestion|;
      && p[|t.head|..|t.head| + k] == article[..k]
      && p[b..b + |OptionBlock(options)|] == OptionBlock(options)
  {
    RenderEmbeds(w.spark, Truncate(article, SparkArticleLimit), question, OptionBlock(options));
  }
}
