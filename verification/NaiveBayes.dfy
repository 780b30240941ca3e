/**
 The incremental text classifier (`DynamicNaiveBayes`).  Texts are given as their words.  Probabilities are real
 numbers and scores are products; the engine keeps the logarithms of the same quantities.
 */
module NaiveBayes {
  import opened Sequences

  datatype Doc = Doc(words: seq<string>, category: string)

  // ---------- What a training history counts ----------

  function Occurrences(words: seq<string>, word: string): nat {
    if words == [] then 0 else Occurrences(words[..|words| - 1], word) + if words[|words| - 1] == word then 1 else 0
  }

  function DocCount(history: seq<Doc>, category: string): nat {
    if history == [] then 0
    else DocCount(history[..|history| - 1], category) + if history[|history| - 1].category == category then 1 else 0
  }

  function WordCount(history: seq<Doc>, category: string, word: string): nat {
    if history == [] then 0
    else
      WordCount(history[..|history| - 1], category, word)
      + if history[|history| - 1].category == category then Occurrences(history[|history| - 1].words, word) else 0
  }

  function TotalWords(history: seq<Doc>, category: string): nat {
    if history == [] then 0
    else
      TotalWords(history[..|history| - 1], category)
      + if history[|history| - 1].category == category then |history[|history| - 1].words| else 0
  }

  function Vocabulary(history: seq<Doc>): set<string> {
    if history == [] then {} else Vocabulary(history[..|history| - 1]) + ToSet(history[|history| - 1].words)
  }

  // The classes in the order in which they first appear.
  function Classes(history: seq<Doc>): seq<string> {
    if history == [] then []
    else
      var before := Classes(history[..|history| - 1]);
      var c := history[|history| - 1].category;
      if c in before then before else before + [c]
  }

  // ---------- What prediction is about ----------

  // The smoothed probability of a word in a class.
  function Smoothed(history: seq<Doc>, category: string, word: string): real {
    Fraction(WordCount(history, category, word), TotalWords(history, category), |Vocabulary(history)|)
  }

  function Fraction(count: nat, total: nat, vocabulary: nat): real {
    (count + 1) as real / (total + vocabulary + 1) as real
  }

  function Likelihood(history: seq<Doc>, words: seq<string>, category: string): real {
    if words == [] then 1.0
    else Likelihood(history, words[..|words| - 1], category) * Smoothed(history, category, words[|words| - 1])
  }

  function Prior(history: seq<Doc>, category: string): real {
    if history == [] then 0.0 else DocCount(history, category) as real / |history| as real
  }

  function ClassScore(history: seq<Doc>, words: seq<string>, category: string): real {
    Prior(history, category) * Likelihood(history, words, category)
  }

  // The probability that the text belongs to the class, by Bayes' rule.
  ghost function Posterior(history: seq<Doc>, words: seq<string>, category: string): real {
    var evidence := SumOver(ClassSet(history), c => ClassScore(history, words, c));
    if evidence > 0.0 then Over(ClassScore(history, words, category), evidence) else 0.0
  }

  function Over(x: real, y: real): real
    requires y > 0.0
  {
    x / y
  }

  function ClassSet(history: seq<Doc>): set<string> {
    ToSet(Classes(history))
  }

  // ---------- Sums over a set of names ----------

  ghost function SumOver(s: set<string>, f: string -> real): real {
    if s == {} then 0.0
    else
      var x :| x in s;
      f(x) + SumOver(s - {x}, f)
  }

  lemma {:induction false} SumOverAny(s: set<string>, f: string -> real, x: string)
    requires x in s
    ensures SumOver(s, f) == f(x) + SumOver(s - {x}, f)
    decreases |s|
  {
    var y :| y in s && SumOver(s, f) == f(y) + SumOver(s - {y}, f);
    if y != x {
      SumOverAny(s - {y}, f, x);
      SumOverAny(s - {x}, f, y);
      assert s - {y} - {x} == s - {x} - {y};
    }
  }

  lemma {:induction false} SumOverPlus(s: set<string>, f: string -> real, g: string -> real, h: string -> real)
    requires forall x :: x in s ==> h(x) == f(x) + g(x)
    ensures SumOver(s, h) == SumOver(s, f) + SumOver(s, g)
    decreases |s|
  {
    if s != {} {
      var x :| x in s;
      SumOverAny(s, f, x);
      SumOverAny(s, g, x);
      SumOverAny(s, h, x);
      SumOverPlus(s - {x}, f, g, h);
    }
  }

  // Two functions that agree on a set, and one of them vanishing elsewhere on a larger one, have the same sums.
  lemma {:induction false} SumOverExtra(s: set<string>, f: string -> real, t: set<string>, g: string -> real)
    requires s <= t && (forall x :: x in s ==> f(x) == g(x)) && forall x :: x in t && x !in s ==> g(x) == 0.0
    ensures SumOver(s, f) == SumOver(t, g)
    decreases |t|
  {
    if t != {} {
      var x :| x in t;
      SumOverAny(t, g, x);
      if x in s {
        SumOverAny(s, f, x);
        SumOverExtra(s - {x}, f, t - {x}, g);
      } else {
        SumOverExtra(s, f, t - {x}, g);
      }
    } else {
      assert s == {};
    }
  }

  lemma {:induction false} Distribute(x: real, y: real, d: real)
    ensures (x + y) * d == x * d + y * d
  {
  }

  function Times(x: real, y: real): real { x * y }

  lemma {:induction false} NothingTimes(y: real)
    ensures Times(0.0, y) == 0.0
  {
  }

  lemma {:induction false} OneMore(x: real, rest: real, n: nat, bound: real)
    requires 0.0 < x <= bound && 0.0 <= rest <= Times(n as real, bound)
    ensures 0.0 <= x + rest <= Times((n + 1) as real, bound)
  {
  }

  lemma {:induction false} SumOverBounds(s: set<string>, f: string -> real, bound: real)
    requires forall x :: x in s ==> 0.0 < f(x) <= bound
    ensures 0.0 <= SumOver(s, f) <= Times(|s| as real, bound)
    decreases |s|
  {
    hide Times;
    if s == {} {
      NothingTimes(bound);
    } else {
      var x :| x in s;
      SumOverAny(s, f, x);
      SumOverBounds(s - {x}, f, bound);
      OneMore(f(x), SumOver(s - {x}, f), |s - {x}|, bound);
      assert |s - {x}| + 1 == |s|;
    }
  }

  // ---------- The counted words of a class add up to its total ----------

  lemma {:induction false} OccurrencesSum(words: seq<string>, s: set<string>)
    requires ToSet(words) <= s
    ensures SumOver(s, w => Occurrences(words, w) as real) == |words| as real
  {
    var f := w => Occurrences(words, w) as real;
    if words == [] {
      SumOverExtra({}, f, s, f);
    } else {
      var last := words[|words| - 1];
      var g := w => Occurrences(words[..|words| - 1], w) as real;
      var h := w => if w == last then 1.0 else 0.0;
      assert ToSet(words[..|words| - 1]) <= ToSet(words);
      assert last in ToSet(words);
      OccurrencesSum(words[..|words| - 1], s);
      SumOverPlus(s, g, h, f);
      SumOverExtra({last}, h, s, h);
      SumOverAny({last}, h, last);
    }
  }

  lemma {:induction false} TotalIsSum(history: seq<Doc>, category: string, s: set<string>)
    requires Vocabulary(history) <= s
    ensures SumOver(s, w => WordCount(history, category, w) as real) == TotalWords(history, category) as real
  {
    var f := w => WordCount(history, category, w) as real;
    if history == [] {
      SumOverExtra({}, f, s, f);
    } else {
      var doc := history[|history| - 1];
      var g := w => WordCount(history[..|history| - 1], category, w) as real;
      TotalIsSum(history[..|history| - 1], category, s);
      if doc.category == category {
        OccurrencesSum(doc.words, s);
        SumOverPlus(s, g, w => Occurrences(doc.words, w) as real, f);
      } else {
        SumOverExtra(s, g, s, f);
      }
    }
  }

  // The smoothed probabilities of a class, over the vocabulary and one slot for unseen words, sum to one.
  lemma {:induction false} ProbabilitiesSumToOne(history: seq<Doc>, category: string)
    ensures SumOver(Vocabulary(history), w => Smoothed(history, category, w))
            + Fraction(0, TotalWords(history, category), |Vocabulary(history)|) == 1.0
  {
    hide WordCount, TotalWords, Vocabulary, Fraction, Smoothed;
    var s, total := Vocabulary(history), TotalWords(history, category);
    var d := (total + |s| + 1) as real;
    var f, g := w => WordCount(history, category, w) as real, w => Smoothed(history, category, w);
    TotalIsSum(history, category, s);
    forall w ensures Times(g(w), d) == f(w) + 1.0 {
      SmoothedTimesTotal(history, category, w);
    }
    SumOfFractions(s, f, g, d);
    FractionTimesTotal(0, total, |s|);
    Distribute(SumOver(s, g), Fraction(0, total, |s|), d);
    Cancel(SumOver(s, g) + Fraction(0, total, |s|), d);
  }

  lemma {:induction false} SmoothedTimesTotal(history: seq<Doc>, category: string, w: string)
    ensures Smoothed(history, category, w) * (TotalWords(history, category) + |Vocabulary(history)| + 1) as real
         == WordCount(history, category, w) as real + 1.0
  {
    hide WordCount, TotalWords, Vocabulary, Fraction;
    FractionTimesTotal(WordCount(history, category, w), TotalWords(history, category), |Vocabulary(history)|);
  }

  lemma {:induction false} FractionTimesTotal(count: nat, total: nat, vocabulary: nat)
    ensures Fraction(count, total, vocabulary) * (total + vocabulary + 1) as real == count as real + 1.0
  {
  }

  lemma {:induction false} Cancel(x: real, d: real)
    requires d > 0.0 && x * d == d
    ensures x == 1.0
  {
  }

  lemma {:induction false} OneMoreFraction(gx: real, fx: real, gs: real, fs: real, n: nat, d: real)
    requires Times(gx, d) == fx + 1.0 && Times(gs, d) == fs + n as real
    ensures Times(gx + gs, d) == fx + fs + (n + 1) as real
  {
  }

  lemma {:induction false} SumOfFractions(s: set<string>, f: string -> real, g: string -> real, d: real)
    requires forall x :: x in s ==> Times(g(x), d) == f(x) + 1.0
    ensures Times(SumOver(s, g), d) == SumOver(s, f) + |s| as real
    decreases |s|
  {
    hide Times;
    if s == {} {
      NothingTimes(d);
    } else {
      var x :| x in s;
      SumOverAny(s, f, x);
      SumOverAny(s, g, x);
      SumOfFractions(s - {x}, f, g, d);
      assert |s - {x}| + 1 == |s|;
      OneMoreFraction(g(x), f(x), SumOver(s - {x}, g), SumOver(s - {x}, f), |s - {x}|, d);
    }
  }

  // ---------- The order of training does not matter ----------

  function Without(history: seq<Doc>, k: nat): seq<Doc>
    requires k < |history|
  {
    history[..k] + history[k + 1..]
  }

  lemma {:induction false} RemoveAny(history: seq<Doc>, k: nat, c: string, w: string)
    requires k < |history|
    ensures DocCount(history, c) == DocCount(Without(history, k), c) + DocCount([history[k]], c)
    ensures WordCount(history, c, w) == WordCount(Without(history, k), c, w) + WordCount([history[k]], c, w)
    ensures TotalWords(history, c) == TotalWords(Without(history, k), c) + TotalWords([history[k]], c)
    ensures Vocabulary(history) == Vocabulary(Without(history, k)) + Vocabulary([history[k]])
  {
    hide DocCount, WordCount, TotalWords, Vocabulary;
    var n := |history| - 1;
    var last := history[n];
    assert history == history[..n] + [last];
    OneMoreDoc(history[..n], last, c, w);
    if k == n {
      assert Without(history, k) == history[..n];
      NoDocs(c, w);
    } else {
      RemoveAny(history[..n], k, c, w);
      assert Without(history, k) == Without(history[..n], k) + [last];
      OneMoreDoc(Without(history[..n], k), last, c, w);
    }
  }

  // A document adds what it counts alone.
  lemma {:induction false} OneMoreDoc(history: seq<Doc>, doc: Doc, c: string, w: string)
    ensures DocCount(history + [doc], c) == DocCount(history, c) + DocCount([doc], c)
    ensures WordCount(history + [doc], c, w) == WordCount(history, c, w) + WordCount([doc], c, w)
    ensures TotalWords(history + [doc], c) == TotalWords(history, c) + TotalWords([doc], c)
    ensures Vocabulary(history + [doc]) == Vocabulary(history) + Vocabulary([doc])
  {
    hide Occurrences, ToSet;
    assert (history + [doc])[..|history|] == history && [doc][..0] == [];
  }

  lemma {:induction false} NoDocs(c: string, w: string)
    ensures DocCount([], c) == 0 && WordCount([], c, w) == 0 && TotalWords([], c) == 0 && Vocabulary([]) == {}
  {
  }

  lemma {:induction false} ClassesAreCategories(history: seq<Doc>, c: string)
    ensures c in Classes(history) <==> DocCount(history, c) > 0
  {
    if history != [] { ClassesAreCategories(history[..|history| - 1], c); }
  }

  lemma {:induction false} OrderIsIrrelevant(a: seq<Doc>, b: seq<Doc>, c: string, w: string)
    requires multiset(a) == multiset(b)
    ensures |a| == |b|
    ensures DocCount(a, c) == DocCount(b, c)
    ensures WordCount(a, c, w) == WordCount(b, c, w)
    ensures TotalWords(a, c) == TotalWords(b, c)
    ensures Vocabulary(a) == Vocabulary(b)
    decreases |a|
  {
    hide DocCount, WordCount, TotalWords, Vocabulary;
    assert |multiset(a)| == |a| && |multiset(b)| == |b|;
    if a == [] {
      assert b == [];
    } else {
      var n := |a| - 1;
      assert a[n] in multiset(b);
      var k :| 0 <= k < |b| && b[k] == a[n];
      SameWithout(a, n, b, k);
      OrderIsIrrelevant(Without(a, n), Without(b, k), c, w);
      RemoveAny(a, n, c, w);
      RemoveAny(b, k, c, w);
    }
  }

  lemma {:induction false} SameWithout(a: seq<Doc>, n: nat, b: seq<Doc>, k: nat)
    requires n < |a| && k < |b| && a[n] == b[k] && multiset(a) == multiset(b)
    ensures multiset(Without(a, n)) == multiset(Without(b, k))
  {
    assert a == a[..n] + [a[n]] + a[n + 1..];
    assert b == b[..k] + [b[k]] + b[k + 1..];
    assert multiset(Without(a, n)) == multiset(a) - multiset{a[n]};
    assert multiset(Without(b, k)) == multiset(b) - multiset{b[k]};
  }

  // Every posterior is that of any other order of the same training.
  lemma {:induction false} PosteriorIgnoresOrder(a: seq<Doc>, b: seq<Doc>, words: seq<string>, category: string)
    requires multiset(a) == multiset(b)
    ensures Posterior(a, words, category) == Posterior(b, words, category)
  {
    hide ClassScore, DocCount, Classes;
    forall c ensures c in Classes(a) <==> c in Classes(b) {
      ClassesAreCategories(a, c);
      ClassesAreCategories(b, c);
      OrderIsIrrelevant(a, b, c, c);
    }
    assert ClassSet(a) == ClassSet(b);
    forall c ensures ClassScore(a, words, c) == ClassScore(b, words, c) { ScoreIgnoresOrder(a, b, words, c); }
    SumOverExtra(ClassSet(a), c => ClassScore(a, words, c), ClassSet(b), c => ClassScore(b, words, c));
  }

  lemma {:induction false} ScoreIgnoresOrder(a: seq<Doc>, b: seq<Doc>, words: seq<string>, category: string)
    requires multiset(a) == multiset(b)
    ensures ClassScore(a, words, category) == ClassScore(b, words, category)
  {
    hide DocCount, Likelihood;
    OrderIsIrrelevant(a, b, category, category);
    LikelihoodIgnoresOrder(a, b, words, category);
  }

  lemma {:induction false} LikelihoodIgnoresOrder(a: seq<Doc>, b: seq<Doc>, words: seq<string>, category: string)
    requires multiset(a) == multiset(b)
    ensures Likelihood(a, words, category) == Likelihood(b, words, category)
    decreases |words|
  {
    hide WordCount, TotalWords, Vocabulary, Fraction;
    if words != [] {
      OrderIsIrrelevant(a, b, category, words[|words| - 1]);
      LikelihoodIgnoresOrder(a, b, words[..|words| - 1], category);
    }
  }

  // ---------- The model ----------

  function Lookup(counts: map<string, nat>, word: string): nat {
    if word in counts then counts[word] else 0
  }

  // The per-class counters of a history: one per class, with an entry for each word seen in it.
  ghost predicate CountsWords(wordCounts: map<string, map<string, nat>>, history: seq<Doc>) {
    && (forall c :: c in wordCounts <==> DocCount(history, c) > 0)
    && (forall c :: c in wordCounts ==> CountsWordsOf(wordCounts[c], history, c))
  }

  ghost predicate CountsWordsOf(counts: map<string, nat>, history: seq<Doc>, c: string) {
    forall w :: Lookup(counts, w) == WordCount(history, c, w) && (w in counts <==> WordCount(history, c, w) > 0)
  }

  ghost predicate CountsClasses(categories: seq<string>, docCounts: map<string, nat>, history: seq<Doc>) {
    && categories == Classes(history)
    && (forall c :: c in docCounts <==> DocCount(history, c) > 0)
    && (forall c :: c in docCounts ==> docCounts[c] == DocCount(history, c))
  }

  // The sum of a dictionary's values.
  method SumValues(counts: map<string, nat>) returns (total: nat)
    ensures total as real == SumOver(counts.Keys, w => Lookup(counts, w) as real)
  {
    total := 0;
    var rest := counts.Keys;
    ghost var f := w => Lookup(counts, w) as real;
    while rest != {}
      invariant rest <= counts.Keys
      invariant total as real + SumOver(rest, f) == SumOver(counts.Keys, f)
    {
      var w :| w in rest;
      SumOverAny(rest, f, w);
      total := total + counts[w];
      rest := rest - {w};
    }
  }

  class DynamicNaiveBayes {
    var categories: seq<string>                      // the keys of classDocCounts in insertion order
    var classDocCounts: map<string, nat>
    var wordCounts: map<string, map<string, nat>>
    var vocab: set<string>
    var totalDocs: nat

    // The counters are those of a training history.
    ghost predicate Counts(history: seq<Doc>)
      reads this
    {
      && totalDocs == |history|
      && CountsClasses(categories, classDocCounts, history)
      && CountsWords(wordCounts, history)
      && vocab == Vocabulary(history)
    }

    constructor ()
      ensures Counts([])
    {
      categories, classDocCounts, wordCounts, vocab, totalDocs := [], map[], map[], {}, 0;
    }

    method CountWords(words: seq<string>, category: string)
      requires category in wordCounts
      modifies this`wordCounts, this`vocab
      ensures wordCounts.Keys == old(wordCounts.Keys)
      ensures forall c :: c in wordCounts && c != category ==> wordCounts[c] == old(wordCounts)[c]
      ensures forall w :: Lookup(wordCounts[category], w)
                == Lookup(old(wordCounts)[category], w) + Occurrences(words, w)
      ensures forall w :: w in wordCounts[category] <==> w in old(wordCounts)[category] || w in words
      ensures vocab == old(vocab) + ToSet(words)
    {
      hide Occurrences, ToSet;
      NothingCountedYet();
      for i := 0 to |words|
        invariant wordCounts.Keys == old(wordCounts.Keys)
        invariant forall c :: c in wordCounts && c != category ==> wordCounts[c] == old(wordCounts)[c]
        invariant forall w ::
            Lookup(wordCounts[category], w) == Lookup(old(wordCounts)[category], w) + Occurrences(words[..i], w)
        invariant forall w :: w in wordCounts[category] <==> w in old(wordCounts)[category] || w in words[..i]
        invariant vocab == old(vocab) + ToSet(words[..i])
      {
        var word := words[i];
        CountedSoFar(words, i);
        var counts := wordCounts[category];
        if word !in counts { counts := counts[word := 0]; }
        counts := counts[word := counts[word] + 1];
        wordCounts := wordCounts[category := counts];
        vocab := vocab + {word};
      }
      assert words[..|words|] == words;
    }

    // `partial_fit`
    method PartialFit(words: seq<string>, category: string, ghost history: seq<Doc>)
      requires Counts(history)
      modifies this
      ensures Counts(history + [Doc(words, category)])
    {
      hide CountsClasses, CountsWords, CountsWordsOf, Vocabulary, Occurrences, ToSet, Lookup;
      ghost var doc := Doc(words, category);
      SameClasses(categories, classDocCounts, wordCounts, history, category);
      ClassCountsGrow(categories, classDocCounts, history, doc);
      ReadyToCount(wordCounts, history, category);
      VocabularyGrows(history, doc);
      if category !in classDocCounts {
        categories := categories + [category];
        classDocCounts := classDocCounts[category := 0];
        wordCounts := wordCounts[category := map[]];
      }
      classDocCounts := classDocCounts[category := classDocCounts[category] + 1];
      assert classDocCounts == old(classDocCounts)[category := classDocCounts[category]];
      totalDocs := totalDocs + 1;
      ghost var before := wordCounts;
      CountWords(words, category);
      WordCountsGrow(before, wordCounts, history, doc);
    }

    method ScoreOf(words: seq<string>, category: string, ghost history: seq<Doc>) returns (score: real)
      requires Counts(history) && category in classDocCounts
      ensures score == ClassScore(history, words, category)
    {
      hide CountsWordsOf, SumOver, Vocabulary, TotalWords, WordCount;
      SameClasses(categories, classDocCounts, wordCounts, history, category);
      var counts := wordCounts[category];
      var totalWords := SumValues(counts);
      CountedTotal(counts, history, category);
      score := classDocCounts[category] as real / totalDocs as real;
      var likelihood := 1.0;
      for i := 0 to |words|
        invariant likelihood == Likelihood(history, words[..i], category)
      {
        assert words[..i + 1][..i] == words[..i];
        CountedWord(counts, history, category, words[i]);
        likelihood := likelihood * Fraction(Lookup(counts, words[i]), totalWords, |vocab|);
      }
      assert words[..|words|] == words;
      score := score * likelihood;
    }

    method ScoreClasses(words: seq<string>, ghost history: seq<Doc>) returns (scores: seq<real>)
      requires Counts(history) && history != []
      ensures |scores| == |categories|
      ensures forall k :: 0 <= k < |scores| ==> scores[k] == ClassScore(history, words, categories[k]) > 0.0
    {
      hide CountsClasses, CountsWords, ClassScore, Vocabulary, DocCount;
      scores := [];
      for i := 0 to |categories|
        invariant |scores| == i
        invariant forall k :: 0 <= k < i ==> scores[k] == ClassScore(history, words, categories[k]) > 0.0
      {
        SameClasses(categories, classDocCounts, wordCounts, history, categories[i]);
        var score := ScoreOf(words, categories[i], history);
        ScoreIsPositive(history, words, categories[i]);
        scores := scores + [score];
      }
    }

    // `predict`: the first class with the greatest score, and its share of all scores.
    method Predict(words: seq<string>, ghost history: seq<Doc>) returns (category: string, confidence: real)
      requires Counts(history)
      ensures history == [] ==> category == "Uncategorized" && confidence == 0.0
      ensures history != [] ==>
                && Classes(history) != []
                && (exists d :: d in history && d.category == category)
                && IsFirstBest(history, words, category)
                && confidence == Posterior(history, words, category)
                && Over(1.0, |Classes(history)| as real) <= confidence <= 1.0
    {
      hide CountsWords, SumOver, ClassScore, Vocabulary, DocCount, Classes, ToSet, ClassSet, Posterior, IsFirstBest,
        Over;
      if totalDocs == 0 { return "Uncategorized", 0.0; }
      ClassesExist(history);
      ghost var f := c => ClassScore(history, words, c);
      var scores := ScoreClasses(words, history);
      var best := FirstGreatest(scores);
      var sum := 0.0;
      SumOverNone(f, categories);
      for i := 0 to |scores|
        invariant sum == SumOver(ToSet(categories[..i]), f)
      {
        SumOverNext(categories, i, f);
        sum := sum + scores[i];
      }
      assert categories[..|scores|] == categories;
      BestPosterior(history, words, scores, best, sum);
      category := categories[best];
      confidence := Over(scores[best], sum);
    }
  }

  method FirstGreatest(scores: seq<real>) returns (best: nat)
    requires scores != []
    ensures best < |scores|
    ensures forall k :: 0 <= k < |scores| ==> scores[k] <= scores[best]
    ensures forall k :: 0 <= k < best ==> scores[k] < scores[best]
  {
    best := 0;
    for i := 1 to |scores|
      invariant best < i
      invariant forall k :: 0 <= k < i ==> scores[k] <= scores[best]
      invariant forall k :: 0 <= k < best ==> scores[k] < scores[best]
    {
      if scores[i] > scores[best] { best := i; }
    }
  }

  lemma {:induction false} BestPosterior(history: seq<Doc>, words: seq<string>, scores: seq<real>, best: nat, sum: real)
    requires |scores| == |Classes(history)| && best < |scores|
    requires forall k :: 0 <= k < |scores| ==> scores[k] == ClassScore(history, words, Classes(history)[k]) > 0.0
    requires forall k :: 0 <= k < |scores| ==> scores[k] <= scores[best]
    requires forall k :: 0 <= k < best ==> scores[k] < scores[best]
    requires sum == SumOver(ToSet(Classes(history)), c => ClassScore(history, words, c))
    ensures IsFirstBest(history, words, Classes(history)[best])
    ensures exists d :: d in history && d.category == Classes(history)[best]
    ensures sum > 0.0 && Over(scores[best], sum) == Posterior(history, words, Classes(history)[best])
    ensures Over(1.0, |scores| as real) <= Posterior(history, words, Classes(history)[best]) <= 1.0
  {
    hide ClassScore, Classes, SumOver, Over, IsFirstBest;
    assert ToSet(Classes(history)) == ClassSet(history);
    PosteriorBounds(history, words, Classes(history)[best]);
    var first := ClassAppears(history, best);
    assert history[first] in history;
    FirstBest(history, words, best);
  }

  lemma {:induction false} FirstBest(history: seq<Doc>, words: seq<string>, best: nat)
    requires best < |Classes(history)|
    requires SumOver(ClassSet(history), c => ClassScore(history, words, c)) > 0.0
    requires forall k :: 0 <= k < |Classes(history)| ==>
               ClassScore(history, words, Classes(history)[k]) <= ClassScore(history, words, Classes(history)[best])
    requires forall k :: 0 <= k < best ==>
               ClassScore(history, words, Classes(history)[k]) < ClassScore(history, words, Classes(history)[best])
    ensures IsFirstBest(history, words, Classes(history)[best])
  {
    hide ClassScore, Classes, SumOver, Over, Posterior;
    forall i | 0 <= i < |history|
      ensures Posterior(history, words, history[i].category) <= Posterior(history, words, Classes(history)[best])
      ensures Posterior(history, words, history[i].category) == Posterior(history, words, Classes(history)[best]) ==>
                exists j :: 0 <= j <= i && history[j].category == Classes(history)[best]
    {
      var k := ClassAt(history, i);
      PosteriorsCompare(history, words, Classes(history)[k], Classes(history)[best]);
      if k >= best {
        ClassesAreDistinct(history);
        var j := EarlierClass(history, best, i);
      }
    }
  }

  lemma {:induction false} ClassAt(history: seq<Doc>, i: nat) returns (k: nat)
    requires i < |history|
    ensures k < |Classes(history)| && Classes(history)[k] == history[i].category
  {
    hide Classes;
    CategoryCounts(history, i);
    ClassesAreCategories(history, history[i].category);
    k :| 0 <= k < |Classes(history)| && Classes(history)[k] == history[i].category;
  }

  lemma {:induction false} PosteriorsCompare(history: seq<Doc>, words: seq<string>, a: string, b: string)
    requires SumOver(ClassSet(history), c => ClassScore(history, words, c)) > 0.0
    ensures ClassScore(history, words, a) <= ClassScore(history, words, b) ==>
              Posterior(history, words, a) <= Posterior(history, words, b)
    ensures ClassScore(history, words, a) < ClassScore(history, words, b) ==>
              Posterior(history, words, a) < Posterior(history, words, b)
  {
    hide ClassScore, SumOver, Over;
    SharesCompare(ClassScore(history, words, a), ClassScore(history, words, b),
                  SumOver(ClassSet(history), c => ClassScore(history, words, c)));
  }

  lemma {:induction false} SharesCompare(x: real, y: real, sum: real)
    requires sum > 0.0
    ensures x <= y ==> Over(x, sum) <= Over(y, sum)
    ensures x < y ==> Over(x, sum) < Over(y, sum)
  {
    assert y / sum - x / sum == (y - x) / sum;
  }

  // No class is more probable, and none that is as probable was trained earlier.
  ghost predicate IsFirstBest(history: seq<Doc>, words: seq<string>, category: string) {
    forall i :: 0 <= i < |history| ==>
      && Posterior(history, words, history[i].category) <= Posterior(history, words, category)
      && (Posterior(history, words, history[i].category) == Posterior(history, words, category) ==>
            exists j :: 0 <= j <= i && history[j].category == category)
  }

  lemma {:induction false} ClassAppears(history: seq<Doc>, k: nat) returns (j: nat)
    requires k < |Classes(history)|
    ensures j < |history| && history[j].category == Classes(history)[k]
  {
    var n := |history| - 1;
    if k < |Classes(history[..n])| {
      j := ClassAppears(history[..n], k);
    } else {
      j := n;
    }
  }

  // The classes stand in the order in which they were first trained.
  lemma {:induction false} EarlierClass(history: seq<Doc>, b: nat, i: nat) returns (j: nat)
    requires b < |Classes(history)| && i < |history|
    requires forall k :: 0 <= k < b ==> Classes(history)[k] != history[i].category
    ensures j <= i && history[j].category == Classes(history)[b]
  {
    var n := |history| - 1;
    var before := Classes(history[..n]);
    assert before <= Classes(history);
    assert forall k :: 0 <= k < |before| ==> before[k] == Classes(history)[k];
    if i < n {
      var k := ClassAt(history[..n], i);
      j := EarlierClass(history[..n], b, i);
    } else {
      j := ClassAppears(history, b);
    }
  }

  lemma {:induction false} CategoryCounts(history: seq<Doc>, i: nat)
    requires i < |history|
    ensures DocCount(history, history[i].category) > 0
  {
    if i < |history| - 1 { CategoryCounts(history[..|history| - 1], i); }
  }

  lemma {:induction false} ClassesAreDistinct(history: seq<Doc>)
    ensures forall i, j :: 0 <= i < j < |Classes(history)| ==> Classes(history)[i] != Classes(history)[j]
  {
    if history != [] { ClassesAreDistinct(history[..|history| - 1]); }
  }

  lemma {:induction false} ClassesExist(history: seq<Doc>)
    requires history != []
    ensures Classes(history) != []
    ensures forall c :: c in Classes(history) <==> DocCount(history, c) > 0
    ensures forall i, j :: 0 <= i < j < |Classes(history)| ==> Classes(history)[i] != Classes(history)[j]
    ensures |ClassSet(history)| == |Classes(history)|
  {
    forall c ensures c in Classes(history) <==> DocCount(history, c) > 0 { ClassesAreCategories(history, c); }
    ClassesAreDistinct(history);
    SizeOfDistinct(Classes(history));
  }

  lemma {:induction false} SumOverNone(f: string -> real, names: seq<string>)
    ensures SumOver(ToSet(names[..0]), f) == 0.0
  {
  }

  lemma {:induction false} SumOverNext(names: seq<string>, i: nat, f: string -> real)
    requires i < |names| && forall k, l :: 0 <= k < l < |names| ==> names[k] != names[l]
    ensures SumOver(ToSet(names[..i + 1]), f) == SumOver(ToSet(names[..i]), f) + f(names[i])
  {
    SumOverAny(ToSet(names[..i + 1]), f, names[i]);
    assert ToSet(names[..i + 1]) - {names[i]} == ToSet(names[..i]);
  }

  lemma {:induction false} LikelihoodIsPositive(history: seq<Doc>, words: seq<string>, category: string)
    ensures Likelihood(history, words, category) > 0.0
  {
    hide WordCount, TotalWords, Vocabulary;
    if words != [] {
      LikelihoodIsPositive(history, words[..|words| - 1], category);
      ProductIsPositive(Likelihood(history, words[..|words| - 1], category),
                        Smoothed(history, category, words[|words| - 1]));
    }
  }

  lemma {:induction false} ProductIsPositive(x: real, y: real)
    requires x > 0.0 && y > 0.0
    ensures x * y > 0.0
  {
  }

  lemma {:induction false} ScoreIsPositive(history: seq<Doc>, words: seq<string>, category: string)
    requires DocCount(history, category) > 0
    ensures ClassScore(history, words, category) > 0.0
  {
    hide Likelihood;
    LikelihoodIsPositive(history, words, category);
    ProductIsPositive(Prior(history, category), Likelihood(history, words, category));
  }

  // A class that none beats has at least its equal share of the evidence, and at most all of it.
  lemma {:induction false} PosteriorBounds(history: seq<Doc>, words: seq<string>, category: string)
    requires category in Classes(history)
    requires forall c :: c in Classes(history) ==>
               0.0 < ClassScore(history, words, c) <= ClassScore(history, words, category)
    ensures SumOver(ClassSet(history), c => ClassScore(history, words, c)) > 0.0
    ensures Over(1.0, |Classes(history)| as real) <= Posterior(history, words, category) <= 1.0
  {
    hide ClassScore, Classes, SumOver, Over, Times;
    var f := c => ClassScore(history, words, c);
    var classes := ClassSet(history);
    var best := f(category);
    ClassesAreDistinct(history);
    SizeOfDistinct(Classes(history));
    SumOverBounds(classes, f, best);
    SumOverAny(classes, f, category);
    SumOverBounds(classes - {category}, f, best);
    ShareAtMost(best, SumOver(classes, f));
    ShareAtLeast(best, SumOver(classes, f), |Classes(history)|);
  }

  lemma {:induction false} ShareAtMost(best: real, sum: real)
    requires 0.0 < best <= sum
    ensures Over(best, sum) <= 1.0
  {
    assert best / sum * sum == best;
  }

  lemma {:induction false} ShareAtLeast(best: real, sum: real, n: nat)
    requires n > 0 && 0.0 < sum <= Times(n as real, best)
    ensures Over(1.0, n as real) <= Over(best, sum)
  {
  }

  // ---------- Training steps ----------

  lemma {:induction false} SameClasses(categories: seq<string>, docCounts: map<string, nat>,
                                       wordCounts: map<string, map<string, nat>>, history: seq<Doc>, category: string)
    requires CountsClasses(categories, docCounts, history) && CountsWords(wordCounts, history)
    ensures category in docCounts <==> category in wordCounts
    ensures category in docCounts <==> category in categories
    ensures category in docCounts ==>
              DocCount(history, category) > 0 && CountsWordsOf(wordCounts[category], history, category)
  {
    hide CountsWordsOf, Classes, DocCount;
    ClassesAreCategories(history, category);
  }

  lemma {:induction false} ClassCountsGrow(categories: seq<string>, docCounts: map<string, nat>, history: seq<Doc>,
                                           doc: Doc)
    requires CountsClasses(categories, docCounts, history)
    ensures var c := doc.category;
            CountsClasses(if c in docCounts then categories else categories + [c],
                          docCounts[c := (if c in docCounts then docCounts[c] else 0) + 1], history + [doc])
  {
    assert (history + [doc])[..|history|] == history;
    ClassesAreCategories(history, doc.category);
    forall c ensures DocCount(history + [doc], c) == DocCount(history, c) + if c == doc.category then 1 else 0 {
    }
  }

  lemma {:induction false} VocabularyGrows(history: seq<Doc>, doc: Doc)
    ensures Vocabulary(history + [doc]) == Vocabulary(history) + ToSet(doc.words)
  {
  }

  // The counters just before the words of one more document of a class are counted.
  ghost predicate Ready(wordCounts: map<string, map<string, nat>>, history: seq<Doc>, category: string) {
    && category in wordCounts
    && (forall c :: c in wordCounts <==> c == category || DocCount(history, c) > 0)
    && (forall c :: c in wordCounts ==> CountsWordsOf(wordCounts[c], history, c))
  }

  lemma {:induction false} ReadyToCount(wordCounts: map<string, map<string, nat>>, history: seq<Doc>, category: string)
    requires CountsWords(wordCounts, history)
    ensures Ready(if category in wordCounts then wordCounts else wordCounts[category := map[]], history, category)
  {
    hide CountsWordsOf, DocCount;
    if category !in wordCounts { NothingCounted(history, category); }
  }

  lemma {:induction false} NothingCounted(history: seq<Doc>, category: string)
    requires DocCount(history, category) == 0
    ensures CountsWordsOf(map[], history, category)
  {
    if history != [] { NothingCounted(history[..|history| - 1], category); }
  }

  lemma {:induction false} CountedSoFar(words: seq<string>, i: nat)
    requires i < |words|
    ensures forall w :: Occurrences(words[..i + 1], w) == Occurrences(words[..i], w) + if words[i] == w then 1 else 0
    ensures forall w :: w in words[..i + 1] <==> w in words[..i] || w == words[i]
    ensures ToSet(words[..i + 1]) == ToSet(words[..i]) + {words[i]}
  {
    assert words[..i + 1] == words[..i] + [words[i]];
    assert words[..i + 1][..i] == words[..i];
  }

  lemma NothingCountedYet()
    ensures ToSet<string>([]) == {} && forall w :: Occurrences([], w) == 0
  {
  }

  lemma {:induction false} OccursIffIn(words: seq<string>, w: string)
    ensures w in words <==> Occurrences(words, w) > 0
  {
    if words != [] { OccursIffIn(words[..|words| - 1], w); }
  }

  lemma {:induction false} WordCountsGrow(before: map<string, map<string, nat>>, after: map<string, map<string, nat>>,
                                          history: seq<Doc>, doc: Doc)
    requires Ready(before, history, doc.category) && after.Keys == before.Keys
    requires forall c :: c in after && c != doc.category ==> after[c] == before[c]
    requires forall w :: Lookup(after[doc.category], w) == Lookup(before[doc.category], w) + Occurrences(doc.words, w)
    requires forall w :: w in after[doc.category] <==> w in before[doc.category] || w in doc.words
    ensures CountsWords(after, history + [doc])
  {
    hide Occurrences, Lookup;
    var longer := history + [doc];
    assert longer[..|history|] == history;
    forall c | c in after ensures CountsWordsOf(after[c], longer, c) {
      forall w
        ensures Lookup(after[c], w) == WordCount(longer, c, w) && (w in after[c] <==> WordCount(longer, c, w) > 0)
      {
        OccursIffIn(doc.words, w);
        assert CountsWordsOf(before[c], history, c);
      }
    }
  }

  lemma {:induction false} CountedWord(counts: map<string, nat>, history: seq<Doc>, category: string, word: string)
    requires CountsWordsOf(counts, history, category)
    ensures Lookup(counts, word) == WordCount(history, category, word)
  {
  }

  lemma {:induction false} CountedTotal(counts: map<string, nat>, history: seq<Doc>, category: string)
    requires CountsWordsOf(counts, history, category)
    ensures SumOver(counts.Keys, w => Lookup(counts, w) as real) == TotalWords(history, category) as real
  {
    hide WordCount, Lookup, TotalWords, SumOver;
    var f, g := w => Lookup(counts, w) as real, w => WordCount(history, category, w) as real;
    var all := counts.Keys + Vocabulary(history);
    TotalIsSum(history, category, all);
    SumOverExtra(counts.Keys, f, all, g);
  }
}
