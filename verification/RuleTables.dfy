/** When two tables of rules classify the same, also next to any other rules. */
module RuleTables {
  import opened Ascii
  import opened LegacyRules
  import opened Options
  import opened RuleKeys
  import opened RuleMatching
  import opened Sequences
  import opened SubCategories
  import opened Substrings

  // Some rule of this priority and outcome may be the one a transaction gets.
  ghost predicate WinsAt(rules: seq<Rule>, texts: Texts, test: RegexTest, priority: int, outcome: (string, string)) {
    exists r :: Wins(rules, r, texts, test) && r.priority == priority && Outcome(r) == outcome
  }

  ghost predicate SameWinners(a: seq<Rule>, b: seq<Rule>, texts: Texts, test: RegexTest) {
    forall priority, outcome ::
      WinsAt(a, texts, test, priority, outcome) <==> WinsAt(b, texts, test, priority, outcome)
  }

  ghost predicate Apart(others: seq<Rule>, keys: set<string>) {
    forall o :: o in others ==> Key(o) !in keys
  }

  // Both tables assign the same next to any rules of other keys.
  ghost predicate SameInContext(a: seq<Rule>, b: seq<Rule>, keys: set<string>, test: RegexTest) {
    forall others, texts, outcome :: Apart(others, keys) ==>
      (Assigns(a + others, texts, test, outcome) <==> Assigns(b + others, texts, test, outcome))
  }

  // Where a rule fires, some rule wins.
  lemma {:induction false} Winner(rules: seq<Rule>, r: Rule, texts: Texts, test: RegexTest) returns (w: Rule)
    requires Fires(rules, r, texts, test)
    ensures Wins(rules, w, texts, test)
  {
    hide Matches;
    var init, last := rules[..|rules| - 1], rules[|rules| - 1];
    assert rules == init + [last];
    assert forall q :: Fires(rules, q, texts, test) <==>
      Fires(init, q, texts, test) || (q == last && last.isActive && Matches(last, texts, test));
    if q :| Fires(init, q, texts, test) {
      w := Winner(init, q, texts, test);
      if Fires(rules, last, texts, test) && last.priority < w.priority { w := last; }
    } else {
      w := last;
    }
  }

  // ---------- The same winners give the same assignments in every context ----------

  lemma {:induction false} SameWinnersAssign(a: seq<Rule>, b: seq<Rule>, others: seq<Rule>, texts: Texts,
                                             test: RegexTest, outcome: (string, string))
    requires SameWinners(a, b, texts, test) && Assigns(a + others, texts, test, outcome)
    ensures Assigns(b + others, texts, test, outcome)
  {
    hide Matches, Outcome, SameWinners;
    var r :| Wins(a + others, r, texts, test) && Outcome(r) == outcome;
    var w := r;
    if r in a {
      assert Wins(a, r, texts, test);
      w := Counterpart(a, b, r, texts, test);
    }
    forall x | Fires(b + others, x, texts, test) ensures w.priority <= x.priority {
      if x in b {
        var y := Winner(b, x, texts, test);
        SameWinnersSwap(a, b, texts, test);
        var z := Counterpart(b, a, y, texts, test);
        assert Fires(a + others, z, texts, test);
      } else {
        assert Fires(a + others, x, texts, test);
      }
    }
    assert Wins(b + others, w, texts, test);
  }

  lemma {:induction false} SameWinnersSwap(a: seq<Rule>, b: seq<Rule>, texts: Texts, test: RegexTest)
    requires SameWinners(a, b, texts, test)
    ensures SameWinners(b, a, texts, test)
  {
    hide WinsAt;
  }

  lemma {:induction false} Counterpart(a: seq<Rule>, b: seq<Rule>, r: Rule, texts: Texts, test: RegexTest)
    returns (w: Rule)
    requires SameWinners(a, b, texts, test) && Wins(a, r, texts, test)
    ensures Wins(b, w, texts, test) && w.priority == r.priority && Outcome(w) == Outcome(r)
  {
    hide Wins, Outcome;
    assert WinsAt(a, texts, test, r.priority, Outcome(r));
    assert WinsAt(b, texts, test, r.priority, Outcome(r));
    w :| Wins(b, w, texts, test) && w.priority == r.priority && Outcome(w) == Outcome(r);
  }

  // ---------- Different winners are told apart in some context ----------

  function Long(n: nat): string {
    seq(n, _ => 'x')
  }

  lemma {:induction false} AliasesAreShort(name: string)
    requires name in ALIASES
    ensures |name| <= 40
  {
  }

  lemma {:induction false} LongIsPlain(n: nat)
    requires n > 40
    ensures Normalize(Long(n)) == Long(n) && |Lower(Long(n))| == n
  {
    hide ALIASES;
    assert Long(n)[0] == 'x' && Long(n)[n - 1] == 'x';
    assert Trim(Long(n)) == Long(n);
    assert |Lower(Long(n))| == n;
    if Lower(Long(n)) in ALIASES { AliasesAreShort(Lower(Long(n))); }
  }

  // A rule that matches a given description, in a category that is stored, under a new sub-category.
  function Rival(description: string, priority: int, avoid: string, n: nat): Rule {
    Rule(0, if avoid == "EXPENSE" then "INCOME" else "EXPENSE", Long(n), CONTAINS, description, None, priority, true)
  }

  lemma {:induction false} RivalIsApart(texts: Texts, priority: int, avoid: string, n: nat, test: RegexTest)
    requires n > 40
    ensures var rival := Rival(texts.description, priority, avoid, n);
            && |Key(rival)| > n && Matches(rival, texts, test) && rival.isActive && rival.priority == priority
            && Outcome(rival).0 != avoid
  {
    hide Key, Lower, Normalize, Trim, Long, Includes;
    var rival := Rival(texts.description, priority, avoid, n);
    LongIsPlain(n);
    KeyShape(rival);
    var text := Lower(texts.description);
    IncludesItself(text);
  }

  lemma {:induction false} IncludesItself(text: string)
    ensures Includes(text, text)
  {
    assert text[0..0 + |text|] == text;
    assert IncludedAt(text, text, 0);
  }

  // The first table has a winner that no rule of the second can hold against a rival.
  lemma {:induction false} Outbid(a: seq<Rule>, b: seq<Rule>, w: Rule, keys: set<string>, texts: Texts, test: RegexTest)
    returns (others: seq<Rule>)
    requires Wins(a, w, texts, test) && forall x :: Fires(b, x, texts, test) ==> w.priority < x.priority
    ensures Apart(others, keys)
    ensures Assigns(a + others, texts, test, Outcome(w)) && !Assigns(b + others, texts, test, Outcome(w))
  {
    hide Matches, Key, Rival, Outcome;
    var n := LongerThan(keys);
    if n <= 40 { n := 41; }
    var rival := Rival(texts.description, w.priority, Outcome(w).0, n);
    RivalIsApart(texts, w.priority, Outcome(w).0, n, test);
    others := [rival];
    assert Wins(a + others, w, texts, test);
    assert Fires(b + others, rival, texts, test);
    assert forall x :: Fires(b + others, x, texts, test) <==> Fires(b, x, texts, test) || x == rival;
    forall x | Wins(b + others, x, texts, test) ensures Outcome(x) != Outcome(w) {
      assert x.priority <= rival.priority;
    }
  }

  // A winner of the first table without a counterpart in the second.
  lemma {:induction false} Distinguish(a: seq<Rule>, b: seq<Rule>, r: Rule, keys: set<string>, texts: Texts,
                                       test: RegexTest)
    returns (others: seq<Rule>, outcome: (string, string))
    requires Wins(a, r, texts, test) && !WinsAt(b, texts, test, r.priority, Outcome(r))
    ensures Apart(others, keys)
    ensures Assigns(a + others, texts, test, outcome) <==> !Assigns(b + others, texts, test, outcome)
  {
    hide Matches, Outcome, Key, Fires;
    if x :| Fires(b, x, texts, test) {
      var w := Winner(b, x, texts, test);
      if w.priority < r.priority {
        WinnersAreLeast(a, r, w.priority, texts, test);
        others := Outbid(b, a, w, keys, texts, test);
        outcome := Outcome(w);
      } else if r.priority < w.priority {
        WinnersAreLeast(b, w, r.priority, texts, test);
        others := Outbid(a, b, r, keys, texts, test);
        outcome := Outcome(r);
      } else {
        others, outcome := [], Outcome(r);
        assert a + [] == a && b + [] == b;
        EqualPriorities(b, w, texts, test);
      }
    } else {
      others, outcome := [], Outcome(r);
      assert a + [] == a && b + [] == b;
    }
  }

  lemma {:induction false} WinnersAreLeast(rules: seq<Rule>, w: Rule, bound: int, texts: Texts, test: RegexTest)
    requires Wins(rules, w, texts, test) && bound < w.priority
    ensures forall x :: Fires(rules, x, texts, test) ==> bound < x.priority
  {
    hide Fires;
  }

  lemma {:induction false} EqualPriorities(rules: seq<Rule>, w: Rule, texts: Texts, test: RegexTest)
    requires Wins(rules, w, texts, test)
    ensures forall x :: Wins(rules, x, texts, test) ==> x.priority == w.priority
  {
    hide Fires;
  }

  // Two tables classify the same in every context exactly when every transaction has the same winning priority and
  // the same winning outcomes in both.
  lemma {:induction false} ContextsDecide(a: seq<Rule>, b: seq<Rule>, keys: set<string>, test: RegexTest)
    ensures SameInContext(a, b, keys, test) <==> forall texts :: SameWinners(a, b, texts, test)
  {
    hide Wins, Outcome, Assigns, Apart, SameWinners;
    if forall texts :: SameWinners(a, b, texts, test) {
      forall others, texts, outcome | Apart(others, keys)
        ensures Assigns(a + others, texts, test, outcome) <==> Assigns(b + others, texts, test, outcome)
      {
        SameWinnersSwap(a, b, texts, test);
        if Assigns(a + others, texts, test, outcome) { SameWinnersAssign(a, b, others, texts, test, outcome); }
        if Assigns(b + others, texts, test, outcome) { SameWinnersAssign(b, a, others, texts, test, outcome); }
      }
    }
    if SameInContext(a, b, keys, test) {
      forall texts ensures SameWinners(a, b, texts, test) { WinnersAgree(a, b, keys, texts, test); }
    }
  }

  lemma {:induction false} WinnersAgree(a: seq<Rule>, b: seq<Rule>, keys: set<string>, texts: Texts, test: RegexTest)
    requires SameInContext(a, b, keys, test)
    ensures SameWinners(a, b, texts, test)
  {
    hide Wins, Outcome, Assigns, Apart;
    forall priority, outcome
      ensures WinsAt(a, texts, test, priority, outcome) <==> WinsAt(b, texts, test, priority, outcome)
    {
      if WinsAt(a, texts, test, priority, outcome) && !WinsAt(b, texts, test, priority, outcome) {
        var r :| Wins(a, r, texts, test) && r.priority == priority && Outcome(r) == outcome;
        var others, o := Distinguish(a, b, r, keys, texts, test);
      }
      if WinsAt(b, texts, test, priority, outcome) && !WinsAt(a, texts, test, priority, outcome) {
        var r :| Wins(b, r, texts, test) && r.priority == priority && Outcome(r) == outcome;
        var others, o := Distinguish(b, a, r, keys, texts, test);
      }
    }
  }
}
