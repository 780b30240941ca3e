/** What the counters and the posteriors of the classifier mean, in terms of the training documents. */
module Posteriors {
  import opened NaiveBayes

  // ---------- Counters as numbers of positions ----------

  ghost function DocsOf(history: seq<Doc>, category: string): set<nat> {
    set i: nat | i < |history| && history[i].category == category
  }

  lemma {:induction false} DocCountIs(history: seq<Doc>, category: string)
    ensures DocCount(history, category) == |DocsOf(history, category)|
  {
    if history == [] {
      assert DocsOf(history, category) == {};
    } else {
      var n := |history| - 1;
      DocCountIs(history[..n], category);
      var last := if history[n].category == category then {n} else {};
      assert DocsOf(history, category) == DocsOf(history[..n], category) + last;
    }
  }

  ghost function Places(words: seq<string>, word: string): set<nat> {
    set j: nat | j < |words| && words[j] == word
  }

  lemma {:induction false} OccurrencesIs(words: seq<string>, word: string)
    ensures Occurrences(words, word) == |Places(words, word)|
  {
    if words == [] {
      assert Places(words, word) == {};
    } else {
      var n := |words| - 1;
      OccurrencesIs(words[..n], word);
      var last := if words[n] == word then {n} else {};
      assert Places(words, word) == Places(words[..n], word) + last;
    }
  }

  // The places of a word in the documents of a class.
  ghost function PlacesIn(history: seq<Doc>, category: string, word: string): set<(nat, nat)> {
    set i: nat, j: nat | i < |history| && j < |history[i].words| && history[i].category == category
                         && history[i].words[j] == word :: (i, j)
  }

  ghost function PlacesOfAny(history: seq<Doc>, category: string): set<(nat, nat)> {
    set i: nat, j: nat | i < |history| && j < |history[i].words| && history[i].category == category :: (i, j)
  }

  ghost function Row(i: nat, js: set<nat>): set<(nat, nat)> {
    set j | j in js :: (i, j)
  }

  lemma {:induction false} RowSize(i: nat, js: set<nat>)
    ensures |Row(i, js)| == |js|
  {
    if js == {} {
      assert Row(i, js) == {};
    } else {
      var j :| j in js;
      RowSize(i, js - {j});
      assert Row(i, js) == Row(i, js - {j}) + {(i, j)};
    }
  }

  lemma {:induction false} WordCountIs(history: seq<Doc>, category: string, word: string)
    ensures WordCount(history, category, word) == |PlacesIn(history, category, word)|
  {
    hide Row, Places;
    if history == [] {
      assert PlacesIn(history, category, word) == {};
    } else {
      var n := |history| - 1;
      WordCountIs(history[..n], category, word);
      OccurrencesIs(history[n].words, word);
      var js := if history[n].category == category then Places(history[n].words, word) else {};
      RowSize(n, js);
      LastRow(history, category, word, js);
    }
  }

  lemma {:induction false} LastRow(history: seq<Doc>, category: string, word: string, js: set<nat>)
    requires history != []
    requires var last := history[|history| - 1];
             js == if last.category == category then Places(last.words, word) else {}
    ensures var n := |history| - 1;
            && PlacesIn(history, category, word) == PlacesIn(history[..n], category, word) + Row(n, js)
            && PlacesIn(history[..n], category, word) !! Row(n, js)
  {
  }

  lemma {:induction false} TotalWordsIs(history: seq<Doc>, category: string)
    ensures TotalWords(history, category) == |PlacesOfAny(history, category)|
  {
    hide Row, Below;
    if history == [] {
      assert PlacesOfAny(history, category) == {};
    } else {
      var n := |history| - 1;
      TotalWordsIs(history[..n], category);
      var js := if history[n].category == category then Below(|history[n].words|) else {};
      RowSize(n, js);
      LastRowOfAny(history, category, js);
    }
  }

  lemma {:induction false} LastRowOfAny(history: seq<Doc>, category: string, js: set<nat>)
    requires history != []
    requires js == if history[|history| - 1].category == category then Below(|history[|history| - 1].words|) else {}
    ensures var n := |history| - 1;
            && PlacesOfAny(history, category) == PlacesOfAny(history[..n], category) + Row(n, js)
            && PlacesOfAny(history[..n], category) !! Row(n, js)
  {
  }

  function Below(n: nat): (below: set<nat>)
    ensures |below| == n && forall j: nat :: j in below <==> j < n
  {
    if n == 0 then {} else Below(n - 1) + {n - 1}
  }

  lemma {:induction false} VocabularyIs(history: seq<Doc>, word: string)
    ensures word in Vocabulary(history) <==> exists i :: 0 <= i < |history| && word in history[i].words
  {
    if history != [] {
      var n := |history| - 1;
      VocabularyIs(history[..n], word);
      if i :| 0 <= i < |history| && word in history[i].words {
        if i < n { assert word in history[..n][i].words; }
      }
    }
  }

  // ---------- The posterior of the empty text ----------

  lemma {:induction false} CountsSum(history: seq<Doc>, s: set<string>)
    requires forall d :: d in history ==> d.category in s
    ensures SumOver(s, c => DocCount(history, c) as real) == |history| as real
  {
    var f := c => DocCount(history, c) as real;
    if history == [] {
      SumOverExtra({}, f, s, f);
    } else {
      var n := |history| - 1;
      var last := history[n].category;
      var g := c => DocCount(history[..n], c) as real;
      var h := c => if c == last then 1.0 else 0.0;
      assert history[n] in history;
      CountsSum(history[..n], s);
      SumOverPlus(s, g, h, f);
      SumOverExtra({last}, h, s, h);
      SumOverAny({last}, h, last);
    }
  }

  // Scaling every summand scales the sum.
  lemma {:induction false} SumOverScaled(s: set<string>, f: string -> real, g: string -> real, d: real)
    requires forall x :: x in s ==> f(x) == Times(g(x), d)
    ensures SumOver(s, f) == Times(SumOver(s, g), d)
    decreases |s|
  {
    hide Times;
    if s == {} {
      NothingTimes(d);
    } else {
      var x :| x in s;
      SumOverAny(s, f, x);
      SumOverAny(s, g, x);
      SumOverScaled(s - {x}, f, g, d);
      TimesPlus(g(x), SumOver(s - {x}, g), d);
    }
  }

  lemma {:induction false} TimesPlus(x: real, y: real, d: real)
    ensures Times(x + y, d) == Times(x, d) + Times(y, d)
  {
  }

  lemma {:induction false} OverTimes(x: real, d: real)
    requires d > 0.0
    ensures Times(Over(x, d), d) == x && Over(Times(x, d), d) == x
  {
  }

  lemma {:induction false} EveryCategoryIsAClass(history: seq<Doc>)
    ensures forall d :: d in history ==> d.category in ClassSet(history)
  {
    forall d | d in history ensures d.category in ClassSet(history) {
      var i :| 0 <= i < |history| && history[i] == d;
      var k := ClassAt(history, i);
    }
  }

  ghost function Evidence(history: seq<Doc>, words: seq<string>): real {
    SumOver(ClassSet(history), c => ClassScore(history, words, c))
  }

  lemma {:induction false} EmptyTextScore(history: seq<Doc>, category: string)
    requires history != []
    ensures Times(ClassScore(history, [], category), |history| as real) == DocCount(history, category) as real
  {
    OverTimes(DocCount(history, category) as real, |history| as real);
  }

  // Of an empty text, a class has the share that its documents have of the training.
  lemma {:induction false} EmptyTextPosterior(history: seq<Doc>, category: string)
    requires history != []
    ensures Posterior(history, [], category) * |history| as real == |DocsOf(history, category)| as real
  {
    hide ClassScore, SumOver, DocCount, ClassSet, Over, Times;
    var n := |history| as real;
    var f := c => DocCount(history, c) as real;
    var g := c => ClassScore(history, [], c);
    EveryCategoryIsAClass(history);
    CountsSum(history, ClassSet(history));
    forall c ensures f(c) == Times(g(c), n) { EmptyTextScore(history, c); }
    SumOverScaled(ClassSet(history), f, g, n);
    AllOfIt(SumOver(ClassSet(history), g), n);
    WholeShare(g(category));
    TimesIs(g(category), n);
    DocCountIs(history, category);
  }

  lemma {:induction false} TimesIs(x: real, y: real)
    ensures Times(x, y) == x * y
  {
  }

  lemma {:induction false} AllOfIt(x: real, n: real)
    requires n > 0.0 && Times(x, n) == n
    ensures x == 1.0
  {
  }

  lemma {:induction false} WholeShare(x: real)
    ensures Over(x, 1.0) == x
  {
  }

  // ---------- All posteriors together ----------

  lemma {:induction false} EvidenceIsPositive(history: seq<Doc>, words: seq<string>)
    requires history != []
    ensures Evidence(history, words) > 0.0
    ensures forall c :: ClassScore(history, words, c) >= 0.0
  {
    hide ClassScore, SumOver, Classes;
    var f := c => ClassScore(history, words, c);
    ClassesExist(history);
    forall c ensures ClassScore(history, words, c) >= 0.0 && (c in ClassSet(history) ==> f(c) > 0.0) {
      ClassesAreCategories(history, c);
      if DocCount(history, c) > 0 { ScoreIsPositive(history, words, c); } else { NoScore(history, words, c); }
    }
    SumIsPositive(ClassSet(history), f);
    assert Classes(history)[0] in ClassSet(history);
  }

  lemma {:induction false} NoScore(history: seq<Doc>, words: seq<string>, c: string)
    requires history != [] && DocCount(history, c) == 0
    ensures ClassScore(history, words, c) == 0.0
  {
  }

  lemma {:induction false} SumIsPositive(s: set<string>, f: string -> real)
    requires forall x :: x in s ==> f(x) > 0.0
    ensures if s == {} then SumOver(s, f) == 0.0 else SumOver(s, f) > 0.0
    decreases |s|
  {
    if s != {} {
      var x :| x in s;
      SumOverAny(s, f, x);
      SumIsPositive(s - {x}, f);
    }
  }

  // The posteriors of all classes add up to one, and no other category has any.
  lemma {:induction false} PosteriorsSumToOne(history: seq<Doc>, words: seq<string>)
    requires history != []
    ensures SumOver(set d | d in history :: d.category, c => Posterior(history, words, c)) == 1.0
    ensures forall c :: 0.0 <= Posterior(history, words, c)
    ensures forall c :: (forall d :: d in history ==> d.category != c) ==> Posterior(history, words, c) == 0.0
  {
    hide ClassScore, SumOver, Over, Times, Posterior;
    var e := Evidence(history, words);
    var f, g := c => ClassScore(history, words, c), c => Posterior(history, words, c);
    EvidenceIsPositive(history, words);
    SameClassSet(history);
    forall c ensures Posterior(history, words, c) >= 0.0 && f(c) == Times(g(c), e) {
      PosteriorIsShare(history, words, c);
      ShareNotNegative(f(c), e);
    }
    SumOverScaled(ClassSet(history), f, g, e);
    AllOfIt(SumOver(ClassSet(history), g), e);
    forall c | forall d :: d in history ==> d.category != c ensures Posterior(history, words, c) == 0.0 {
      NeverTrained(history, c);
      NoScore(history, words, c);
      PosteriorIsShare(history, words, c);
      NothingOver(e);
    }
  }

  lemma {:induction false} PosteriorIsShare(history: seq<Doc>, words: seq<string>, c: string)
    requires Evidence(history, words) > 0.0
    ensures Posterior(history, words, c) == Over(ClassScore(history, words, c), Evidence(history, words))
    ensures Times(Posterior(history, words, c), Evidence(history, words)) == ClassScore(history, words, c)
  {
    hide ClassScore, SumOver, Over, Times;
    OverTimes(ClassScore(history, words, c), Evidence(history, words));
  }

  lemma {:induction false} ShareNotNegative(x: real, e: real)
    requires e > 0.0 && x >= 0.0
    ensures Over(x, e) >= 0.0
  {
  }

  lemma {:induction false} NothingOver(e: real)
    requires e > 0.0
    ensures Over(0.0, e) == 0.0
  {
  }

  lemma {:induction false} NeverTrained(history: seq<Doc>, c: string)
    requires forall d :: d in history ==> d.category != c
    ensures DocCount(history, c) == 0
  {
    if history != [] {
      assert history[|history| - 1] in history;
      NeverTrained(history[..|history| - 1], c);
    }
  }

  lemma {:induction false} SameClassSet(history: seq<Doc>)
    ensures (set d | d in history :: d.category) == ClassSet(history)
  {
    EveryCategoryIsAClass(history);
    forall c | c in ClassSet(history) ensures c in set d | d in history :: d.category {
      var k :| 0 <= k < |Classes(history)| && Classes(history)[k] == c;
      var j := ClassAppears(history, k);
      assert history[j] in history;
    }
  }

  // ---------- One more word ----------

  // One more word multiplies the odds of two classes by the smoothed share of the word in the first over that in the
  // second.
  lemma {:induction false} OneMoreWord(history: seq<Doc>, words: seq<string>, w: string, a: string, b: string)
    requires history != []
    ensures var v := |Vocabulary(history)|;
            var shareA := (|PlacesIn(history, a, w)| + 1) as real / (|PlacesOfAny(history, a)| + v + 1) as real;
            var shareB := (|PlacesIn(history, b, w)| + 1) as real / (|PlacesOfAny(history, b)| + v + 1) as real;
            Posterior(history, words + [w], a) * (Posterior(history, words, b) * shareB)
            == Posterior(history, words + [w], b) * (Posterior(history, words, a) * shareA)
  {
    hide ClassScore, Posterior, Evidence, WordCount, TotalWords, Vocabulary, PlacesIn, PlacesOfAny;
    WordCountIs(history, a, w);
    WordCountIs(history, b, w);
    TotalWordsIs(history, a);
    TotalWordsIs(history, b);
    var e, longer := Evidence(history, words), Evidence(history, words + [w]);
    EvidenceIsPositive(history, words);
    EvidenceIsPositive(history, words + [w]);
    PosteriorIsShare(history, words, a);
    PosteriorIsShare(history, words, b);
    PosteriorIsShare(history, words + [w], a);
    PosteriorIsShare(history, words + [w], b);
    ScoreGrows(history, words, w, a);
    ScoreGrows(history, words, w, b);
    Odds(Posterior(history, words + [w], a), Posterior(history, words, b), Posterior(history, words + [w], b),
         Posterior(history, words, a), Smoothed(history, a, w), Smoothed(history, b, w), e, longer);
  }

  lemma {:induction false} ScoreGrows(history: seq<Doc>, words: seq<string>, w: string, c: string)
    ensures ClassScore(history, words + [w], c) == ClassScore(history, words, c) * Smoothed(history, c, w)
  {
    hide Prior, Smoothed;
    assert (words + [w])[..|words|] == words;
    Regroup(Prior(history, c), Likelihood(history, words, c), Smoothed(history, c, w));
  }

  lemma {:induction false} Regroup(x: real, y: real, z: real)
    ensures x * (y * z) == (x * y) * z
  {
  }

  lemma {:induction false} Odds(a2: real, b1: real, b2: real, a1: real, fa: real, fb: real, e: real, longer: real)
    requires e > 0.0 && longer > 0.0
    requires Times(a2, longer) == Times(a1, e) * fa && Times(b2, longer) == Times(b1, e) * fb
    ensures a2 * (b1 * fb) == b2 * (a1 * fa)
  {
    var x, y := a2 * (b1 * fb), b2 * (a1 * fa);
    Shuffle(a2, b1, fb, longer, e);
    Shuffle(b2, a1, fa, longer, e);
    Crosswise(a1 * e, fa, b1 * e, fb);
    CancelBoth(x, y, longer, e);
  }

  lemma {:induction false} Shuffle(a: real, b: real, f: real, longer: real, e: real)
    ensures a * (b * f) * (longer * e) == (a * longer) * ((b * e) * f)
  {
  }

  lemma {:induction false} Crosswise(p: real, fa: real, q: real, fb: real)
    ensures (p * fa) * (q * fb) == (q * fb) * (p * fa)
  {
  }

  lemma {:induction false} CancelBoth(x: real, y: real, longer: real, e: real)
    requires longer > 0.0 && e > 0.0 && x * (longer * e) == y * (longer * e)
    ensures x == y
  {
    assert longer * e > 0.0;
  }
}
