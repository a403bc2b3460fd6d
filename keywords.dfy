/**
  The specification of the keyword scorer: the important words of the article
  (the 20 most frequent tokens that are not stopwords and longer than two characters,
  as `Counter.most_common(20)` chooses them), the score of one option, and the
  option the scorer picks.
*/
module Keywords {
  import opened Wrappers
  import opened Text
  import opened Seqs

  const StopWords: set<string> :=
    {"the", "a", "an", "and", "or", "but", "in", "on", "at", "to", "for", "of", "with", "by"}

  /** How many of the most frequent words are kept. */
  const ImportantLimit: nat := 20

  /** A question containing one of these (lowercased) is treated as a detail question. */
  const DetailPhrases: seq<string> := ["according to", "the passage states", "the author says"]

  const OverlapWeight: nat := 2
  const VerbatimBonus: nat := 10
  const SentenceBonus: nat := 3

  predicate IsCandidate(w: string) {
    w !in StopWords && |w| > 2
  }

  /** `[word for word in words if word not in stop_words and len(word) > 2]` */
  function Candidates(words: seq<string>): (c: seq<string>)
    ensures forall i :: 0 <= i < |c| ==> c[i] in words && IsCandidate(c[i])
    ensures forall w :: IsCandidate(w) ==> multiset(c)[w] == multiset(words)[w]
    decreases |words|
  {
    if words == [] then []
    else
      assert words == [words[0]] + words[1..];
      (if IsCandidate(words[0]) then [words[0]] else []) + Candidates(words[1..])
  }

  lemma CandidateKept(words: seq<string>, w: string)
    requires w in words && IsCandidate(w)
    ensures w in Candidates(words)
  {
    assert multiset(Candidates(words))[w] == multiset(words)[w];
  }

  /** Dropping a first word other than `w` shifts the first occurrence of `w` among the candidates by one place when that word is kept. */
  lemma CandidateShift(words: seq<string>, w: string)
    requires words != [] && words[0] != w && w in words[1..] && IsCandidate(w)
    ensures w in Candidates(words[1..]) && w in Candidates(words)
    ensures FirstIndex(Candidates(words), w)
      == (if IsCandidate(words[0]) then 1 else 0) + FirstIndex(Candidates(words[1..]), w)
  {
    CandidateKept(words[1..], w);
    CandidateKept(words, w);
    var c, c' := Candidates(words), Candidates(words[1..]);
    if IsCandidate(words[0]) {
      assert c == [words[0]] + c';
      assert c[1..] == c';
    } else {
      assert c == c';
    }
  }

  /** A first word that is a candidate comes first both before and after filtering. */
  lemma CandidateAtHead(words: seq<string>, w: string, v: string)
    requires words != [] && words[0] == w && IsCandidate(w) && w != v
    requires v in words && v in Candidates(words)
    ensures w in Candidates(words)
    ensures FirstIndex(Candidates(words), w) == 0 < FirstIndex(Candidates(words), v)
    ensures FirstIndex(words, w) == 0 < FirstIndex(words, v)
  {
    assert Candidates(words)[0] == w;
  }

  /** Dropping a first word that is neither of two candidates keeps their relative order on both sides. */
  lemma CandidateOrderStep(words: seq<string>, w: string, v: string)
    requires words != [] && words[0] != w && words[0] != v
    requires w in words[1..] && v in words[1..] && IsCandidate(w) && IsCandidate(v)
    requires w in Candidates(words[1..]) && v in Candidates(words[1..])
    requires FirstIndex(Candidates(words[1..]), w) < FirstIndex(Candidates(words[1..]), v)
        <==> FirstIndex(words[1..], w) < FirstIndex(words[1..], v)
    ensures w in Candidates(words) && v in Candidates(words)
    ensures FirstIndex(Candidates(words), w) < FirstIndex(Candidates(words), v)
        <==> FirstIndex(words, w) < FirstIndex(words, v)
  {
    CandidateShift(words, w);
    CandidateShift(words, v);
    FirstIndexOfTail(words, w);
    FirstIndexOfTail(words, v);
  }

  /** Filtering keeps the relative order of the first occurrences of two candidates. */
  lemma {:induction false} CandidateOrder(words: seq<string>, w: string, v: string)
    requires w in words && v in words && IsCandidate(w) && IsCandidate(v) && w != v
    ensures w in Candidates(words) && v in Candidates(words)
    ensures FirstIndex(Candidates(words), w) < FirstIndex(Candidates(words), v)
        <==> FirstIndex(words, w) < FirstIndex(words, v)
    decreases |words|
  {
    CandidateKept(words, w);
    CandidateKept(words, v);
    if words[0] == w {
      CandidateAtHead(words, w, v);
    } else if words[0] == v {
      CandidateAtHead(words, v, w);
    } else {
      assert w in words[1..] && v in words[1..];
      CandidateOrder(words[1..], w, v);
      CandidateOrderStep(words, w, v);
    }
  }

  // ---------------------------------------------------------------- most_common

  /** Candidate `i` ranks strictly ahead of candidate `j`: a higher count, or an equal count and an earlier first occurrence. */
  predicate Ahead(cnt: seq<nat>, i: nat, j: nat) {
    i < |cnt| && j < |cnt| && (cnt[i] > cnt[j] || (cnt[i] == cnt[j] && i < j))
  }

  predicate Below(pool: set<nat>, m: nat) {
    forall i :: i in pool ==> i < m
  }

  /** The best-ranked candidate of `pool` among the indices below `m`, if there is one. */
  function Best(cnt: seq<nat>, pool: set<nat>, m: nat): (b: Option<nat>)
    requires m <= |cnt|
    ensures b.None? ==> forall i :: i in pool ==> i >= m
    ensures b.Some? ==> b.value in pool && b.value < m
    ensures b.Some? ==> forall i :: i in pool && i < m && i != b.value ==> Ahead(cnt, b.value, i)
    decreases m
  {
    if m == 0 then None
    else
      var b := Best(cnt, pool, m - 1);
      if m - 1 !in pool then b
      else if b.None? || cnt[m - 1] > cnt[b.value] then Some(m - 1)
      else b
  }

  /**
    `most_common(n)` as repeated selection: take the candidate with the highest count,
    the earliest one among equal counts, and repeat on what is left.
  */
  function Select(cnt: seq<nat>, pool: set<nat>, n: nat): (r: seq<nat>)
    requires Below(pool, |cnt|)
    ensures |r| == if n < |pool| then n else |pool|
    ensures forall a :: 0 <= a < |r| ==> r[a] in pool
    ensures forall a, b :: 0 <= a < b < |r| ==> r[a] != r[b]
    decreases n
  {
    if n == 0 then []
    else match Best(cnt, pool, |cnt|)
      case None =>
        assert forall i :: i !in pool;
        []
      case Some(k) =>
        assert |pool - {k}| == |pool| - 1;
        [k] + Select(cnt, pool - {k}, n - 1)
  }

  /** `r` is listed in ranking order and each of its candidates ranks ahead of every candidate of `pool` left out of it. */
  predicate Ranked(cnt: seq<nat>, pool: set<nat>, r: seq<nat>) {
    && (forall a, b :: 0 <= a < b < |r| ==> Ahead(cnt, r[a], r[b]))
    && (forall a, q :: 0 <= a < |r| && q in pool && q !in r ==> Ahead(cnt, r[a], q))
  }

  /** Putting the best candidate in front of a ranked selection from the rest gives a ranked selection from the whole pool. */
  lemma PrependRanked(cnt: seq<nat>, head: nat, tail: seq<nat>, pool: set<nat>)
    requires head in pool
    requires Ranked(cnt, pool - {head}, tail)
    requires forall q :: q in pool && q != head ==> Ahead(cnt, head, q)
    requires forall a :: 0 <= a < |tail| ==> tail[a] in pool - {head}
    ensures Ranked(cnt, pool, [head] + tail)
  {
    var r := [head] + tail;
    forall a, b | 0 <= a < b < |r| ensures Ahead(cnt, r[a], r[b]) {
      assert r[b] == tail[b - 1];
      if a == 0 {
        assert tail[b - 1] in pool - {head};
      } else {
        assert r[a] == tail[a - 1];
      }
    }
    forall a, q | 0 <= a < |r| && q in pool && q !in r ensures Ahead(cnt, r[a], q) {
      assert q != head by {
        assert r[0] == head;
      }
      forall i | 0 <= i < |tail| ensures tail[i] != q {
        assert r[i + 1] == tail[i];
      }
      if a > 0 {
        assert r[a] == tail[a - 1];
      }
    }
  }

  /** Each selected candidate ranks ahead of those selected after it and of every candidate left in the pool. */
  lemma {:induction false} SelectRanked(cnt: seq<nat>, pool: set<nat>, n: nat)
    requires Below(pool, |cnt|)
    ensures Ranked(cnt, pool, Select(cnt, pool, n))
    decreases n
  {
    if n > 0 {
      match Best(cnt, pool, |cnt|)
      case None =>
      case Some(k) =>
        SelectRanked(cnt, pool - {k}, n - 1);
        PrependRanked(cnt, k, Select(cnt, pool - {k}, n - 1), pool);
    }
  }

  function Counts(d: seq<string>, words: seq<string>): (cnt: seq<nat>)
    ensures |cnt| == |d|
    ensures forall i :: 0 <= i < |d| ==> cnt[i] == multiset(words)[d[i]]
  {
    seq(|d|, i requires 0 <= i < |d| => multiset(words)[d[i]])
  }

  /** The indices `0 .. m - 1`. */
  function Indices(m: nat): (s: set<nat>)
    ensures forall i: nat :: i in s <==> i < m
    ensures |s| == m
  {
    if m == 0 then {} else Indices(m - 1) + {m - 1}
  }

  /** The positions in `Distinct(words)` of the keys `most_common(n)` lists. */
  function Picked(words: seq<string>, n: nat): (picked: seq<nat>)
    ensures |picked| == if n < |Distinct(words)| then n else |Distinct(words)|
    ensures forall a :: 0 <= a < |picked| ==> picked[a] < |Distinct(words)|
  {
    var d := Distinct(words);
    Select(Counts(d, words), Indices(|d|), n)
  }

  /** The keys of `Counter(words).most_common(n)`, in the order it lists them. */
  function MostCommon(words: seq<string>, n: nat): (top: seq<string>)
    ensures |top| == |Picked(words, n)|
    ensures forall a :: 0 <= a < |top| ==> top[a] == Distinct(words)[Picked(words, n)[a]]
  {
    var picked := Picked(words, n);
    seq(|picked|, a requires 0 <= a < |picked| => Distinct(words)[picked[a]])
  }

  /** Word `w` comes before word `v` in `most_common`'s order. */
  predicate Before(words: seq<string>, w: string, v: string)
    requires w in words && v in words
  {
    multiset(words)[w] > multiset(words)[v]
    || (multiset(words)[w] == multiset(words)[v] && FirstIndex(words, w) < FirstIndex(words, v))
  }

  lemma AheadIsBefore(words: seq<string>, i: nat, j: nat)
    requires i < |Distinct(words)| && j < |Distinct(words)|
    requires Ahead(Counts(Distinct(words), words), i, j)
    ensures Before(words, Distinct(words)[i], Distinct(words)[j])
  {
    if i < j {
      DistinctInFirstOccurrenceOrder(words, i, j);
    }
  }

  lemma PickedRanked(words: seq<string>, n: nat)
    ensures Ranked(Counts(Distinct(words), words), Indices(|Distinct(words)|), Picked(words, n))
  {
    var d := Distinct(words);
    SelectRanked(Counts(d, words), Indices(|d|), n);
  }

  lemma MostCommonOrdered(words: seq<string>, n: nat)
    ensures var top := MostCommon(words, n);
      && (forall a :: 0 <= a < |top| ==> top[a] in words)
      && (forall a, b :: 0 <= a < b < |top| ==> top[a] != top[b] && Before(words, top[a], top[b]))
  {
    var d, top, picked := Distinct(words), MostCommon(words, n), Picked(words, n);
    PickedRanked(words, n);
    forall a, b | 0 <= a < b < |top| ensures top[a] != top[b] && Before(words, top[a], top[b]) {
      assert Ahead(Counts(d, words), picked[a], picked[b]);
      AheadIsBefore(words, picked[a], picked[b]);
    }
  }

  /** A word left out of `most_common(n)` has its position in `Distinct(words)` left out of `Picked`. */
  lemma LeftOutPosition(words: seq<string>, n: nat, v: string)
    requires v in words && v !in MostCommon(words, n)
    ensures v in Distinct(words)
    ensures var j := FirstIndex(Distinct(words), v);
      j in Indices(|Distinct(words)|) && j !in Picked(words, n)
  {
    var d, top, picked := Distinct(words), MostCommon(words, n), Picked(words, n);
    assert v in d by {
      var i :| 0 <= i < |words| && words[i] == v;
    }
    var j := FirstIndex(d, v);
    forall b | 0 <= b < |picked| ensures picked[b] != j {
      assert top[b] != v;
    }
  }

  lemma MostCommonAheadOfLeftOut(words: seq<string>, n: nat)
    ensures var top := MostCommon(words, n);
      forall a, v :: 0 <= a < |top| && v in words && v !in top ==> Before(words, top[a], v)
  {
    var d, top, picked := Distinct(words), MostCommon(words, n), Picked(words, n);
    PickedRanked(words, n);
    forall a, v | 0 <= a < |top| && v in words && v !in top ensures Before(words, top[a], v) {
      LeftOutPosition(words, n, v);
      AheadIsBefore(words, picked[a], FirstIndex(d, v));
    }
  }

  /**
    What `most_common(n)` returns: `n` distinct words of the list (all of them when
    there are fewer), listed in order, each ranking ahead of every word left out.
  */
  lemma MostCommonRanked(words: seq<string>, n: nat)
    ensures var top := MostCommon(words, n);
      && |top| == (if n < |Distinct(words)| then n else |Distinct(words)|)
      && NoDuplicates(top)
      && (forall a :: 0 <= a < |top| ==> top[a] in words)
      && (forall a, b :: 0 <= a < b < |top| ==> Before(words, top[a], top[b]))
      && (forall a, v :: 0 <= a < |top| && v in words && v !in top ==> Before(words, top[a], v))
  {
    MostCommonOrdered(words, n);
    MostCommonAheadOfLeftOut(words, n);
  }

  // ---------------------------------------------------------------- important words

  /** `set(w for w, _ in Counter(candidates).most_common(20))` over the lowercased article. */
  function ImportantWords(articleLower: string): set<string> {
    set w | w in MostCommon(Candidates(Words(articleLower)), ImportantLimit)
  }

  /** There are 20 important words, or every candidate when there are fewer distinct ones. */
  lemma ImportantWordsCount(articleLower: string)
    ensures var important, cands := ImportantWords(articleLower), Candidates(Words(articleLower));
      && |important| == (if ImportantLimit < |Distinct(cands)| then ImportantLimit else |Distinct(cands)|)
      && |important| <= ImportantLimit
  {
    var top := MostCommon(Candidates(Words(articleLower)), ImportantLimit);
    MostCommonRanked(Candidates(Words(articleLower)), ImportantLimit);
    CardinalityOfDistinct(top);
  }

  /** Each important word is a token of the article longer than two characters and not a stopword. */
  lemma ImportantWordsAreCandidates(articleLower: string)
    ensures forall w :: w in ImportantWords(articleLower) ==> w in Words(articleLower) && IsCandidate(w)
  {
    var words := Words(articleLower);
    var cands := Candidates(words);
    var top := MostCommon(cands, ImportantLimit);
    MostCommonOrdered(cands, ImportantLimit);
    forall w | w in ImportantWords(articleLower) ensures w in words && IsCandidate(w) {
      var a :| 0 <= a < |top| && top[a] == w;
      var i :| 0 <= i < |cands| && cands[i] == w;
    }
  }

  /**
    An important word ranks ahead of every candidate left out: a higher count, or the
    same count and an earlier first occurrence.
  */
  lemma ImportantWordsRankAhead(articleLower: string, w: string, v: string)
    requires w in ImportantWords(articleLower)
    requires v in Words(articleLower) && IsCandidate(v) && v !in ImportantWords(articleLower)
    ensures var words := Words(articleLower);
      multiset(words)[v] < multiset(words)[w]
      || (multiset(words)[v] == multiset(words)[w] && FirstIndex(words, w) < FirstIndex(words, v))
  {
    var words := Words(articleLower);
    var cands := Candidates(words);
    var top := MostCommon(cands, ImportantLimit);
    var a :| 0 <= a < |top| && top[a] == w;
    ImportantWordsAreCandidates(articleLower);
    CandidateKept(words, v);
    MostCommonAheadOfLeftOut(cands, ImportantLimit);
    assert Before(cands, w, v);
    CandidateOrder(words, w, v);
  }

  // ---------------------------------------------------------------- option score

  predicate IsDetailQuestion(questionLower: string) {
    exists p :: p in DetailPhrases && Contains(questionLower, p)
  }

  /** `set(re.findall(r'\b\w+\b', option_lower))` */
  function OptionWords(optionLower: string): set<string> {
    set w | w in Words(optionLower)
  }

  /** `any(word in sentence for word in option_words)` */
  predicate Mentions(sentence: string, optionWords: set<string>) {
    exists w :: w in optionWords && Contains(sentence, w)
  }

  /** Three points for each of the sentences that mentions one of the option's words. */
  function MentionPoints(sentences: seq<string>, optionWords: set<string>): (p: nat)
    ensures p <= SentenceBonus * |sentences|
    decreases |sentences|
  {
    if sentences == [] then 0
    else
      MentionPoints(sentences[..|sentences| - 1], optionWords)
      + (if Mentions(sentences[|sentences| - 1], optionWords) then SentenceBonus else 0)
  }

  /** Counting one more sentence adds its three points when it mentions an option word. */
  lemma MentionPointsStep(sentences: seq<string>, k: nat, optionWords: set<string>)
    requires k < |sentences|
    ensures MentionPoints(sentences[..k + 1], optionWords)
      == MentionPoints(sentences[..k], optionWords) + (if Mentions(sentences[k], optionWords) then SentenceBonus else 0)
  {
    assert sentences[..k + 1][..k] == sentences[..k];
  }

  /** Two points per option word that is an important word. */
  function OverlapPoints(optionLower: string, importantWords: set<string>): nat {
    OverlapWeight * |OptionWords(optionLower) * importantWords|
  }

  /** Ten points when the lowercased option occurs verbatim in the lowercased article. */
  function VerbatimPoints(optionLower: string, articleLower: string): nat {
    if Contains(articleLower, optionLower) then VerbatimBonus else 0
  }

  /** For a detail question, three points per `.`-separated piece of the article mentioning an option word. */
  function DetailPoints(articleLower: string, questionLower: string, optionLower: string): nat {
    if IsDetailQuestion(questionLower)
    then MentionPoints(Split(articleLower, '.'), OptionWords(optionLower))
    else 0
  }

  /** The score of one option: the sum of the three terms above. */
  function OptionScore(article: string, question: string, option: string): nat {
    var articleLower, optionLower := Lower(article), Lower(option);
    OverlapPoints(optionLower, ImportantWords(articleLower))
    + VerbatimPoints(optionLower, articleLower)
    + DetailPoints(articleLower, Lower(question), optionLower)
  }

  function ScoreVector(article: string, question: string, options: seq<string>): (scores: seq<int>)
    ensures |scores| == |options|
    ensures forall i :: 0 <= i < |options| ==> scores[i] == OptionScore(article, question, options[i])
  {
    seq(|options|, i requires 0 <= i < |options| => OptionScore(article, question, options[i]) as int)
  }

  /**
    The option the scorer picks: the lowest index of the highest score; `None` for an
    empty option list, where `max([])` raises.
  */
  function KeywordPick(article: string, question: string, options: seq<string>): (r: Option<int>)
    ensures r.None? <==> options == []
    ensures r.Some? ==> 0 <= r.value < |options|
    ensures r.Some? ==> forall j :: 0 <= j < |options| ==>
      OptionScore(article, question, options[j]) <= OptionScore(article, question, options[r.value])
    ensures r.Some? ==> forall j :: 0 <= j < r.value ==>
      OptionScore(article, question, options[j]) < OptionScore(article, question, options[r.value])
  {
    if options == [] then None else Some(FirstArgMax(ScoreVector(article, question, options)) as int)
  }

  lemma {:induction false} SubsetCardinality(a: set<string>, b: set<string>)
    requires a <= b
    ensures |a| <= |b|
    decreases |b|
  {
    if a != {} {
      var x :| x in a;
      SubsetCardinality(a - {x}, b - {x});
    }
  }

  /**
    A score never exceeds 2 points for each of at most 20 shared words, plus 10, plus
    (for a detail question) 3 for each of the `dots + 1` pieces of the article.
  */
  lemma ScoreBound(article: string, question: string, option: string)
    ensures var shared := |OptionWords(Lower(option))|;
      OptionScore(article, question, option)
      <= OverlapWeight * (if shared < ImportantLimit then shared else ImportantLimit)
         + VerbatimBonus
         + (if IsDetailQuestion(Lower(question)) then SentenceBonus * (multiset(Lower(article))['.'] + 1) else 0)
  {
    var articleLower, optionLower := Lower(article), Lower(option);
    var important := ImportantWords(articleLower);
    var optionWords := OptionWords(optionLower);
    ImportantWordsCount(articleLower);
    SubsetCardinality(optionWords * important, optionWords);
    SubsetCardinality(optionWords * important, important);
    var pieces := Split(articleLower, '.');
    SplitPieces(articleLower, '.');
    assert MentionPoints(pieces, optionWords) <= SentenceBonus * |pieces|;
  }
}
