/** What the merge of the legacy rules does to the classification of transactions. */
module RuleEffect {
  import opened Ascii
  import opened LegacyMerge
  import opened LegacyRules
  import opened RuleKeys
  import opened RuleMatching
  import opened RuleTables
  import opened SubCategories
  import opened Substrings

  // ---------- The survivor of a key ----------

  ghost predicate Member(rules: seq<Rule>, key: string, r: Rule) {
    r in rules && Key(r) == key
  }

  lemma {:induction false} SurvivorMatches(rules: seq<Rule>, key: string, texts: Texts, test: RegexTest)
    requires First(rules, key) < |rules|
    ensures Matches(MergedRule(rules, key), texts, test) == Matches(rules[First(rules, key)], texts, test)
  {
    hide Matches, First, LeastPriority, AnyActive, Normalize, Lower;
    SameValueSameTexts(MergedRule(rules, key), rules[First(rules, key)], texts, test);
  }

  lemma {:induction false} SurvivorRow(rules: seq<Rule>, key: string)
    requires First(rules, key) < |rules|
    ensures var m, first := MergedRule(rules, key), rules[First(rules, key)];
            && Member(rules, key, first)
            && m.matchType == first.matchType && m.matchValue == first.matchValue
            && m.category == first.category && m.subCategory == Normalize(first.subCategory)
            && (m.isActive <==> exists q :: Member(rules, key, q) && q.isActive)
            && (forall q :: Member(rules, key, q) ==> m.priority <= q.priority)
  {
    hide Key, First, LeastPriority, Normalize;
    FirstIsFirst(rules, key);
    LeastPriorityIsLeast(rules, key);
    if m :| Member(rules, key, m) && m.isActive { assert AnyActive(rules, key); }
    if AnyActive(rules, key) {
      var q :| q in rules && Key(q) == key && q.isActive;
      assert Member(rules, key, q);
    }
  }

  lemma {:induction false} MemberHasSurvivor(rules: seq<Rule>, r: Rule)
    requires r in rules
    ensures Member(rules, Key(r), r) && First(rules, Key(r)) < |rules|
    ensures MergedRule(rules, Key(r)) in Merged(rules)
  {
    hide Key, First, MergedRule;
    var i: nat :| i < |rules| && rules[i] == r;
    FirstBounds(rules, i);
    var a := SurvivorOf(rules, r);
    MergedAt(rules, a);
    assert Merged(rules)[a] in Merged(rules);
  }

  lemma {:induction false} SurvivorHasMember(rules: seq<Rule>, m: Rule) returns (r: Rule)
    requires m in Merged(rules)
    ensures r in rules && First(rules, Key(r)) < |rules| && m == MergedRule(rules, Key(r))
  {
    hide Key, First, MergedRule, Merged;
    var a: nat :| a < |Merged(rules)| && Merged(rules)[a] == m;
    MergedAt(rules, a);
    r := rules[Origin(rules, a)];
  }

  // A rule keeps what it did for every transaction exactly when its blanks are those of the oldest rule of its key, it
  // has the same category, and its sub-category is the canonical spelling that the survivor gets.
  lemma {:induction false} KeptBySurvivor(rules: seq<Rule>, r: Rule, test: RegexTest)
    requires r in rules && r.matchType != REGEX && forall q :: q in rules ==> NoColon(Owner(q))
    ensures First(rules, Key(r)) < |rules|
    ensures var first := rules[First(rules, Key(r))];
            ClassifyAlike(r, MergedRule(rules, Key(r)), test)
            <==> && Blanks(r.matchValue) == Blanks(first.matchValue)
                 && r.category == first.category && r.subCategory == Normalize(first.subCategory)
  {
    hide Key, First, MergedRule, ClassifyAlike, Blanks, NoColon, Owner, Merged;
    MemberHasSurvivor(rules, r);
    SurvivorRow(rules, Key(r));
    var m := MergedRule(rules, Key(r));
    MergedRuleKey(rules, Key(r));
    SameOwner(rules, Key(r));
    OneKeyClassifiesAlike(r, m, test);
  }

  lemma {:induction false} SameOwner(rules: seq<Rule>, key: string)
    requires First(rules, key) < |rules|
    ensures rules[First(rules, key)] in rules && Owner(MergedRule(rules, key)) == Owner(rules[First(rules, key)])
  {
    hide First, LeastPriority, AnyActive, Normalize;
  }

  // ---------- When a group may be merged ----------

  // For these texts: (i) the survivor matches what an active rule matches, (ii) an active rule of its priority matches
  // what it matches, and (iii) the active rules of its priority have its outcome.
  ghost predicate HarmlessFor(rules: seq<Rule>, key: string, texts: Texts, test: RegexTest)
    requires First(rules, key) < |rules|
  {
    var m := MergedRule(rules, key);
    && (forall r :: Member(rules, key, r) && r.isActive && Matches(r, texts, test) ==> Matches(m, texts, test))
    && (m.isActive && Matches(m, texts, test) ==>
          exists q :: Member(rules, key, q) && q.isActive && q.priority == m.priority && Matches(q, texts, test))
    && (forall r :: Member(rules, key, r) && r.isActive && Matches(r, texts, test) && r.priority == m.priority ==>
          Outcome(r) == Outcome(m))
  }

  ghost predicate Harmless(rules: seq<Rule>, key: string, test: RegexTest)
    requires First(rules, key) < |rules|
  {
    forall texts :: HarmlessFor(rules, key, texts, test)
  }

  // The rules of one key.
  ghost predicate OneGroup(group: seq<Rule>, key: string) {
    group != [] && forall r :: r in group ==> Key(r) == key
  }

  lemma {:induction false} GroupHasSurvivor(group: seq<Rule>, key: string)
    requires OneGroup(group, key)
    ensures First(group, key) == 0 < |group|
  {
    hide Key, First;
    assert group[0] in group;
    FirstBounds(group, 0);
  }

  lemma {:induction false} SameWinnersIfHarmless(group: seq<Rule>, key: string, texts: Texts, test: RegexTest)
    requires OneGroup(group, key) && First(group, key) < |group| && HarmlessFor(group, key, texts, test)
    ensures SameWinners(group, [MergedRule(group, key)], texts, test)
  {
    hide Key, First, Matches, Outcome, MergedRule;
    var m := MergedRule(group, key);
    SurvivorRow(group, key);
    forall priority, outcome
      ensures WinsAt(group, texts, test, priority, outcome) <==> WinsAt([m], texts, test, priority, outcome)
    {
      if WinsAt(group, texts, test, priority, outcome) {
        var r :| Wins(group, r, texts, test) && r.priority == priority && Outcome(r) == outcome;
        assert Member(group, key, r) && Wins([m], m, texts, test);
      }
      if WinsAt([m], texts, test, priority, outcome) {
        assert Fires([m], m, texts, test);
        var q :| Member(group, key, q) && q.isActive && q.priority == m.priority && Matches(q, texts, test);
        assert forall r :: r in group ==> Member(group, key, r);
        assert Wins(group, q, texts, test);
      }
    }
  }

  lemma {:induction false} HarmlessIfSameWinners(group: seq<Rule>, key: string, texts: Texts, test: RegexTest)
    requires OneGroup(group, key) && First(group, key) < |group|
    requires SameWinners(group, [MergedRule(group, key)], texts, test)
    ensures HarmlessFor(group, key, texts, test)
  {
    hide Key, First, Matches, Outcome, MergedRule, SameWinners;
    var m := MergedRule(group, key);
    SurvivorRow(group, key);
    assert forall r :: r in group ==> Member(group, key, r);
    forall r | Member(group, key, r) && r.isActive && Matches(r, texts, test)
      ensures Matches(m, texts, test)
      ensures r.priority == m.priority ==> Outcome(r) == Outcome(m)
    {
      var w := Winner(group, r, texts, test);
      var s := Counterpart(group, [m], w, texts, test);
      if r.priority == m.priority {
        assert Wins(group, r, texts, test);
        var t := Counterpart(group, [m], r, texts, test);
      }
    }
    if m.isActive && Matches(m, texts, test) {
      assert Wins([m], m, texts, test);
      SameWinnersSwap(group, [m], texts, test);
      var q := Counterpart([m], group, m, texts, test);
      assert Member(group, key, q);
    }
  }

  // Next to any rules of other keys, replacing a group by its survivor changes no classification exactly when the three
  // conditions hold for every text.
  lemma {:induction false} GroupInContext(group: seq<Rule>, key: string, test: RegexTest)
    requires OneGroup(group, key)
    ensures First(group, key) < |group|
    ensures SameInContext(group, [MergedRule(group, key)], {key}, test) <==> Harmless(group, key, test)
  {
    hide OneGroup, First, MergedRule, SameWinners, HarmlessFor, SameInContext;
    GroupHasSurvivor(group, key);
    var m := MergedRule(group, key);
    ContextsDecide(group, [m], {key}, test);
    forall texts ensures SameWinners(group, [m], texts, test) <==> HarmlessFor(group, key, texts, test) {
      if SameWinners(group, [m], texts, test) { HarmlessIfSameWinners(group, key, texts, test); }
      if HarmlessFor(group, key, texts, test) { SameWinnersIfHarmless(group, key, texts, test); }
    }
  }

  // ---------- The whole merge ----------

  function Keys(rules: seq<Rule>): set<string> {
    set r | r in rules :: Key(r)
  }

  // The merge of a table changes no classification, next to any rules of other keys, exactly when every transaction
  // keeps its winning priority and its winning outcomes.
  lemma {:induction false} MergeInContext(rules: seq<Rule>, test: RegexTest)
    ensures SameInContext(rules, Merged(rules), Keys(rules), test)
       <==> forall texts :: SameWinners(rules, Merged(rules), texts, test)
  {
    ContextsDecide(rules, Merged(rules), Keys(rules), test);
  }

  lemma {:induction false} SurvivorIsNoLater(rules: seq<Rule>, r: Rule, texts: Texts, test: RegexTest) returns (m: Rule)
    requires forall q :: q in rules && First(rules, Key(q)) < |rules| ==> HarmlessFor(rules, Key(q), texts, test)
    requires Fires(rules, r, texts, test)
    ensures Fires(Merged(rules), m, texts, test) && m.priority <= r.priority
    ensures m.priority == r.priority ==> Outcome(m) == Outcome(r)
  {
    hide Key, First, Matches, Outcome, MergedRule, Merged;
    MemberHasSurvivor(rules, r);
    SurvivorRow(rules, Key(r));
    m := MergedRule(rules, Key(r));
    assert HarmlessFor(rules, Key(r), texts, test);
  }

  lemma {:induction false} SurvivorStandsFor(rules: seq<Rule>, m: Rule, texts: Texts, test: RegexTest) returns (q: Rule)
    requires forall q :: q in rules && First(rules, Key(q)) < |rules| ==> HarmlessFor(rules, Key(q), texts, test)
    requires Fires(Merged(rules), m, texts, test)
    ensures Fires(rules, q, texts, test) && q.priority == m.priority && Outcome(q) == Outcome(m)
  {
    hide Key, First, Matches, Outcome, MergedRule, Merged;
    var r := SurvivorHasMember(rules, m);
    assert HarmlessFor(rules, Key(r), texts, test);
    q :| Member(rules, Key(r), q) && q.isActive && q.priority == m.priority && Matches(q, texts, test);
  }

  // When the group of every key is harmless, the merge changes no classification.
  lemma {:induction false} MergeKeepsClassification(rules: seq<Rule>, test: RegexTest)
    requires forall r :: r in rules && First(rules, Key(r)) < |rules| ==> Harmless(rules, Key(r), test)
    ensures SameInContext(rules, Merged(rules), Keys(rules), test)
  {
    hide Key, First, Merged, HarmlessFor, SameWinners, SameInContext;
    forall texts ensures SameWinners(rules, Merged(rules), texts, test) {
      forall r | r in rules && First(rules, Key(r)) < |rules| ensures HarmlessFor(rules, Key(r), texts, test) {
        assert Harmless(rules, Key(r), test);
      }
      MergedWinners(rules, texts, test);
    }
    MergeInContext(rules, test);
  }

  lemma {:induction false} MergedWinners(rules: seq<Rule>, texts: Texts, test: RegexTest)
    requires forall q :: q in rules && First(rules, Key(q)) < |rules| ==> HarmlessFor(rules, Key(q), texts, test)
    ensures SameWinners(rules, Merged(rules), texts, test)
  {
    hide Key, First, Merged, HarmlessFor, Fires, Outcome;
    forall priority, outcome
      ensures WinsAt(rules, texts, test, priority, outcome) <==> WinsAt(Merged(rules), texts, test, priority, outcome)
    {
      if WinsAt(rules, texts, test, priority, outcome) {
        var r :| Wins(rules, r, texts, test) && r.priority == priority && Outcome(r) == outcome;
        var m := SurvivorIsNoLater(rules, r, texts, test);
        var q := SurvivorStandsFor(rules, m, texts, test);
        forall x | Fires(Merged(rules), x, texts, test) ensures m.priority <= x.priority {
          var y := SurvivorStandsFor(rules, x, texts, test);
        }
        assert Wins(Merged(rules), m, texts, test);
      }
      if WinsAt(Merged(rules), texts, test, priority, outcome) {
        var m :| Wins(Merged(rules), m, texts, test) && m.priority == priority && Outcome(m) == outcome;
        var q := SurvivorStandsFor(rules, m, texts, test);
        forall x | Fires(rules, x, texts, test) ensures q.priority <= x.priority {
          var y := SurvivorIsNoLater(rules, x, texts, test);
        }
        assert Wins(rules, q, texts, test);
      }
    }
  }

  // ---------- A check on the rows ----------

  // Without patterns: the oldest rule matches the value of every active rule, an active rule with its lower-cased value
  // holds the least priority, and the active rules of that priority have the survivor's outcome.
  ghost predicate HarmlessRows(rules: seq<Rule>, key: string, test: RegexTest)
    requires First(rules, key) < |rules|
  {
    var m, first := MergedRule(rules, key), rules[First(rules, key)];
    && (forall r :: Member(rules, key, r) && r.isActive ==>
          TextMatches(first, Lower(r.matchValue), test) && (r.priority == m.priority ==> Outcome(r) == Outcome(m)))
    && (m.isActive ==>
          exists q :: Member(rules, key, q) && q.isActive && q.priority == m.priority
                      && Lower(q.matchValue) == Lower(first.matchValue))
  }

  lemma {:induction false} IncludesTransitive(t: string, u: string, v: string)
    requires Includes(t, u) && Includes(u, v)
    ensures Includes(t, v)
  {
    var i :| 0 <= i <= |t| && IncludedAt(t, u, i);
    var j :| 0 <= j <= |u| && IncludedAt(u, v, j);
    assert i + j + |v| <= |t|;
    forall k | 0 <= k < |v| ensures t[i + j + k] == v[k] {
      assert v[k] == u[j..j + |v|][k] == u[j + k] == t[i..i + |u|][j + k];
    }
    assert t[i + j..i + j + |v|] == v;
    assert IncludedAt(t, v, i + j);
  }

  // A rule that matches another's value matches all that the other does.
  lemma {:induction false} MatchesMore(p: Rule, q: Rule, texts: Texts, test: RegexTest)
    requires p.matchType == q.matchType != REGEX
    requires TextMatches(p, Lower(q.matchValue), test) && Matches(q, texts, test)
    ensures Matches(p, texts, test)
  {
    hide Lower;
    var text := if TextMatches(q, Lower(texts.description), test) then Lower(texts.description) else Lower(texts.name);
    if p.matchType == CONTAINS { IncludesTransitive(text, Lower(q.matchValue), Lower(p.matchValue)); }
  }

  lemma {:induction false} SameTypes(rules: seq<Rule>, key: string, p: Rule, q: Rule)
    requires Member(rules, key, p) && Member(rules, key, q) && NoColon(Owner(p)) && NoColon(Owner(q))
    ensures p.matchType == q.matchType
  {
    hide Key, Owner, NoColon;
    EqualKeys(p, q);
  }

  lemma {:induction false} HarmlessIfRows(rules: seq<Rule>, key: string, texts: Texts, test: RegexTest)
    requires First(rules, key) < |rules| && rules[First(rules, key)].matchType != REGEX
    requires forall r :: Member(rules, key, r) ==> NoColon(Owner(r))
    requires HarmlessRows(rules, key, test)
    ensures HarmlessFor(rules, key, texts, test)
  {
    hide Key, First, MergedRule, TextMatches, Matches, Lower, Outcome, Owner, NoColon;
    var m, first := MergedRule(rules, key), rules[First(rules, key)];
    SurvivorRow(rules, key);
    SurvivorMatches(rules, key, texts, test);
    forall r | Member(rules, key, r) && r.isActive && Matches(r, texts, test) ensures Matches(m, texts, test) {
      SameTypes(rules, key, first, r);
      MatchesMore(first, r, texts, test);
    }
    if m.isActive && Matches(m, texts, test) {
      var q :| Member(rules, key, q) && q.isActive && q.priority == m.priority
               && Lower(q.matchValue) == Lower(first.matchValue);
      SameTypes(rules, key, first, q);
      SameValueSameTexts(q, first, texts, test);
    }
  }

  lemma {:induction false} OwnValueMatches(p: Rule, q: Rule, test: RegexTest)
    requires p.matchType != REGEX
    ensures Matches(p, Texts(q.matchValue, q.matchValue), test) <==> TextMatches(p, Lower(q.matchValue), test)
  {
    hide TextMatches;
  }

  lemma {:induction false} RowsIfHarmless(rules: seq<Rule>, key: string, test: RegexTest)
    requires First(rules, key) < |rules| && rules[First(rules, key)].matchType != REGEX
    requires forall r :: Member(rules, key, r) ==> NoColon(Owner(r))
    requires Harmless(rules, key, test)
    ensures HarmlessRows(rules, key, test)
  {
    hide Key, First, MergedRule, TextMatches, Matches, Lower, Outcome, Owner, NoColon;
    var m, first := MergedRule(rules, key), rules[First(rules, key)];
    SurvivorRow(rules, key);
    forall r | Member(rules, key, r) && r.isActive
      ensures TextMatches(first, Lower(r.matchValue), test)
      ensures r.priority == m.priority ==> Outcome(r) == Outcome(m)
    {
      SameTypes(rules, key, first, r);
      SomeText(r, test);
      var texts := Texts(r.matchValue, r.matchValue);
      assert HarmlessFor(rules, key, texts, test);
      SurvivorMatches(rules, key, texts, test);
      OwnValueMatches(first, r, test);
    }
    if m.isActive {
      var texts := Texts(first.matchValue, first.matchValue);
      SomeText(first, test);
      SurvivorMatches(rules, key, texts, test);
      assert HarmlessFor(rules, key, texts, test);
      var q :| Member(rules, key, q) && q.isActive && q.priority == m.priority && Matches(q, texts, test);
      SameTypes(rules, key, first, q);
      OwnValueMatches(q, first, test);
      MatchedValue(q, first, test);
      MatchedValue(first, q, test);
    }
  }

  // A group that holds no pattern is harmless exactly when its rows pass the check.
  lemma {:induction false} RowsDecide(rules: seq<Rule>, key: string, test: RegexTest)
    requires First(rules, key) < |rules| && rules[First(rules, key)].matchType != REGEX
    requires forall r :: Member(rules, key, r) ==> NoColon(Owner(r))
    ensures Harmless(rules, key, test) <==> HarmlessRows(rules, key, test)
  {
    hide First, HarmlessFor, HarmlessRows, Member;
    if Harmless(rules, key, test) { RowsIfHarmless(rules, key, test); }
    if HarmlessRows(rules, key, test) {
      forall texts ensures HarmlessFor(rules, key, texts, test) { HarmlessIfRows(rules, key, texts, test); }
    }
  }
}
