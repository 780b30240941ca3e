/** Groups of rules, with and without harm from their merge. */
module RuleExamples {
  import opened Ascii
  import opened Integers
  import opened LegacyRules
  import opened Options
  import opened RuleEffect
  import opened RuleKeys
  import opened RuleMatching
  import opened RuleTables
  import opened SubCategories
  import opened Substrings

  // The survivor of two rules of one key.
  lemma {:induction false} SurvivorOfTwo(p: Rule, q: Rule)
    requires Key(p) == Key(q)
    ensures OneGroup([p, q], Key(p)) && First([p, q], Key(p)) == 0
    ensures MergedRule([p, q], Key(p))
         == p.(subCategory := Normalize(p.subCategory), isActive := p.isActive || q.isActive,
               priority := Min(p.priority, q.priority))
  {
    hide Key, Normalize, MergedRule, First;
    assert [p] == [] + [p] && [p, q] == [p] + [q];
    NoFirst(Key(p));
    MergedRuleStarts([], p);
    MergedRuleGrows([p], q, Key(p));
  }

  lemma {:induction false} NoFirst(key: string)
    ensures First([], key) == 0
  {
  }

  function Vat(id: RuleId, value: string, priority: int): Rule {
    Rule(id, "EXPENSE", "Tax", CONTAINS, value, None, priority, true)
  }

  lemma {:induction false} VatKeys(p: Rule, q: Rule)
    requires p == Vat(p.id, "vat", p.priority) && q == Vat(q.id, "vat ", q.priority)
    ensures Key(p) == Key(q) && Normalize("Tax") == "Tax"
    ensures NoColon(Owner(p)) && NoColon(Owner(q))
    ensures Lower(p.matchValue) == "vat" && Lower(q.matchValue) == "vat "
  {
    hide Key, Lower, Trim, Normalize;
    VatTexts();
    PlainTax();
    EqualKeys(p, q);
  }

  lemma PlainTax()
    ensures Normalize("Tax") == "Tax"
  {
  }

  lemma VatTexts()
    ensures Lower("vat") == "vat" && Lower("vat ") == "vat " && Lower("") == ""
    ensures Trim("vat") == "vat" && Trim("vat ") == "vat"
  {
    assert "vat "[..3] == "vat";
  }

  lemma VatIncludes()
    ensures Includes("vat ", "vat") && Includes("vat", "vat") && !Includes("vat", "vat ") && !Includes("", "vat ")
  {
    assert IncludedAt("vat ", "vat", 0) by { assert "vat "[0..3] == "vat"; }
    assert IncludedAt("vat", "vat", 0);
  }

  // A trailing blank does harm when the older rule has it: a text that ends in "vat" is no longer classified.
  lemma {:induction false} BlankExample(test: RegexTest) returns (group: seq<Rule>, key: string, texts: Texts)
    ensures OneGroup(group, key) && First(group, key) < |group|
    ensures Assigns(group, texts, test, ("EXPENSE", "Tax"))
    ensures forall outcome :: !Assigns([MergedRule(group, key)], texts, test, outcome)
  {
    hide Key, Lower, Trim, Normalize, MergedRule, Includes, NoColon, Owner;
    var older, newer := Vat(0, "vat ", 1), Vat(1, "vat", 1);
    VatKeys(newer, older);
    SurvivorOfTwo(older, newer);
    VatTexts();
    VatIncludes();
    group, key, texts := [older, newer], Key(older), Texts("vat", "");
    assert !Matches(older, texts, test) && Matches(newer, texts, test);
    assert Wins(group, newer, texts, test);
  }

  // It does none when the newer rule has it and comes later, although the two rules do not classify alike.
  lemma {:induction false} UnlikeButHarmless(test: RegexTest) returns (older: Rule, newer: Rule)
    ensures Key(older) == Key(newer) && !ClassifyAlike(older, newer, test)
    ensures First([older, newer], Key(older)) < 2 && Harmless([older, newer], Key(older), test)
  {
    hide Key, Lower, Trim, Normalize, MergedRule, Includes, NoColon, Owner, Harmless;
    older, newer := Vat(0, "vat", 1), Vat(1, "vat ", 5);
    VatKeys(older, newer);
    SurvivorOfTwo(older, newer);
    VatTexts();
    VatIncludes();
    assert Classify(older, Texts("vat", ""), test) != Classify(newer, Texts("vat", ""), test);
    assert Member([older, newer], Key(older), older);
    RowsDecide([older, newer], Key(older), test);
  }

  // The harm of a group can be hidden: another rule takes every text that the merge would leave unclassified.
  lemma {:induction false} HiddenHarmExample(test: RegexTest) returns (rules: seq<Rule>, key: string)
    ensures First(rules, key) < |rules| && !Harmless(rules, key, test)
    ensures SameInContext(rules, Merged(rules), Keys(rules), test)
  {
    hide Key, Lower, Trim, Normalize, MergedRule, Merged, Includes, NoColon, Owner, SameInContext, SameWinners;
    var older, newer := Vat(0, "vat ", 5), Vat(1, "vat", 5);
    var income := Vat(2, "vat", 1).(category := "INCOME");
    rules, key := [older, newer, income], Key(older);
    HiddenSurvivors(older, newer, income);
    VatTexts();
    VatIncludes();
    assert Member(rules, key, newer) && Matches(newer, Texts("vat", ""), test);
    assert !HarmlessFor(rules, key, Texts("vat", ""), test);
    forall texts ensures SameWinners(rules, Merged(rules), texts, test) {
      HiddenWinners(older, newer, income, texts, test);
    }
    MergeInContext(rules, test);
  }

  lemma {:induction false} HiddenSurvivors(older: Rule, newer: Rule, income: Rule)
    requires older == Vat(0, "vat ", 5) && newer == Vat(1, "vat", 5)
    requires income == Vat(2, "vat", 1).(category := "INCOME")
    ensures Key(older) == Key(newer)
    ensures var rules := [older, newer, income];
            && First(rules, Key(older)) < 3 && MergedRule(rules, Key(older)) == older
            && First(rules, Key(income)) < 3 && MergedRule(rules, Key(income)) == income
  {
    hide Key, Lower, Trim, Normalize, MergedRule, First, NoColon, Owner, Heading;
    VatKeys(newer, older);
    SurvivorOfTwo(older, newer);
    HeadingsDiffer(older, income);
    SystemOwner(income);
    EqualKeys(older, income);
    var group := [older, newer];
    assert [older, newer, income] == group + [income];
    assert First(group, Key(older)) == 0;
    MergedRuleGrows(group, income, Key(older));
    FirstBeyond(group, Key(older), Key(income));
    MergedRuleStarts(group, income);
  }

  lemma {:induction false} FirstBeyond(group: seq<Rule>, key: string, other: string)
    requires OneGroup(group, key) && other != key
    ensures First(group, other) == |group|
  {
    hide Key;
    if First(group, other) < |group| { FirstIsFirst(group, other); }
  }

  lemma {:induction false} HeadingsDiffer(older: Rule, income: Rule)
    requires older.category == "EXPENSE" && income.category == "INCOME" && older.subCategory == income.subCategory
    ensures Heading(older) != Heading(income)
  {
    hide Normalize;
    assert |Heading(older)| == |Heading(income)| + 1;
  }

  lemma {:induction false} HiddenWinners(older: Rule, newer: Rule, income: Rule, texts: Texts, test: RegexTest)
    requires older == Vat(0, "vat ", 5) && newer == Vat(1, "vat", 5)
    requires income == Vat(2, "vat", 1).(category := "INCOME")
    ensures var rules := [older, newer, income]; SameWinners(rules, Merged(rules), texts, test)
  {
    hide Key, Lower, Matches, MergedRule, Merged, Outcome;
    var rules := [older, newer, income];
    HiddenSurvivors(older, newer, income);
    MemberHasSurvivor(rules, older);
    MemberHasSurvivor(rules, income);
    forall m | m in Merged(rules) ensures m == older || m == income {
      var r := SurvivorHasMember(rules, m);
    }
    OnlyOnValue(older, newer, income, texts, test);
    forall r | r in [older, newer] ensures !Wins(rules, r, texts, test) {
      assert Fires(rules, r, texts, test) ==> Fires(rules, income, texts, test);
    }
    assert Fires(Merged(rules), older, texts, test) ==> Fires(Merged(rules), income, texts, test);
    assert forall r :: Wins(rules, r, texts, test) <==> r == income && Matches(income, texts, test);
    assert forall r :: Wins(Merged(rules), r, texts, test) <==> r == income && Matches(income, texts, test);
  }

  // Whatever either rule matches, the third matches too.
  lemma {:induction false} OnlyOnValue(older: Rule, newer: Rule, income: Rule, texts: Texts, test: RegexTest)
    requires older == Vat(0, "vat ", 5) && newer == Vat(1, "vat", 5)
    requires income == Vat(2, "vat", 1).(category := "INCOME")
    ensures Matches(older, texts, test) || Matches(newer, texts, test) ==> Matches(income, texts, test)
  {
    hide Lower, Includes;
    VatTexts();
    VatIncludes();
    if Matches(older, texts, test) { MatchesMore(income, older, texts, test); }
  }

  // Two patterns that differ in letter case only have one key; a digit is no longer classified by its own rule.
  lemma {:induction false} PatternExample(test: RegexTest) returns (group: seq<Rule>, key: string, texts: Texts)
    requires test("\\d", "5") && !test("\\D", "5")
    ensures OneGroup(group, key) && First(group, key) < |group|
    ensures Assigns(group, texts, test, ("EXPENSE", "Tax"))
    ensures forall outcome :: !Assigns([MergedRule(group, key)], texts, test, outcome)
  {
    hide Key, Lower, Trim, Normalize, MergedRule;
    var older := Rule(0, "EXPENSE", "Tax", REGEX, "\\D", None, 1, true);
    var newer := Rule(1, "EXPENSE", "Tax", REGEX, "\\d", None, 1, true);
    DigitPatterns();
    SystemOwner(older);
    SystemOwner(newer);
    EqualKeys(older, newer);
    SurvivorOfTwo(older, newer);
    group, key, texts := [older, newer], Key(older), Texts("5", "5");
    assert Wins(group, newer, texts, test);
  }

  lemma DigitPatterns()
    ensures Lower(Trim("\\d")) == Lower(Trim("\\D")) && Lower("5") == "5"
  {
    assert Trim("\\d") == "\\d" && Trim("\\D") == "\\D";
  }

  // A respelled sub-category: the same transactions get another name.
  lemma {:induction false} SpellingExample(test: RegexTest) returns (rule: Rule, texts: Texts)
    ensures First([rule], Key(rule)) < 1
    ensures Assigns([rule], texts, test, ("LIABILITY", "loan received"))
    ensures !Assigns([MergedRule([rule], Key(rule))], texts, test, ("LIABILITY", "loan received"))
    ensures Assigns([MergedRule([rule], Key(rule))], texts, test, ("LIABILITY", "Loan Borrowed"))
  {
    hide Key, Lower, Trim, Normalize, MergedRule, TextMatches;
    rule := Rule(0, "LIABILITY", "loan received", CONTAINS, "loan", None, 1, true);
    texts := Texts("loan", "loan");
    LoanSpellings();
    assert [rule] == [] + [rule];
    MergedRuleStarts([], rule);
    var m := MergedRule([rule], Key(rule));
    SomeText(rule, test);
    SomeText(m, test);
    assert Wins([rule], rule, texts, test) && Wins([m], m, texts, test);
  }

  // The older of two spellings is switched off, but its priority goes to the survivor, which then takes a transaction
  // from a rule of another key.
  lemma {:induction false} InactiveLeadExample(test: RegexTest)
    returns (group: seq<Rule>, key: string, other: Rule, texts: Texts)
    ensures OneGroup(group, key) && First(group, key) < |group| && Key(other) != key
    ensures Assigns(group + [other], texts, test, ("LIABILITY", "Loan Repaid"))
    ensures !Assigns([MergedRule(group, key)] + [other], texts, test, ("LIABILITY", "Loan Repaid"))
    ensures Assigns([MergedRule(group, key)] + [other], texts, test, ("LIABILITY", "Loan Borrowed"))
  {
    hide Key, Lower, Trim, Normalize, Owner, NoColon, MergedRule, TextMatches;
    var off := Rule(0, "LIABILITY", "loan received", CONTAINS, "loan", None, 1, false);
    var on := Rule(1, "LIABILITY", "Loan Borrowed", CONTAINS, "loan", None, 100, true);
    other := Rule(2, "LIABILITY", "Loan Repaid", CONTAINS, "loan", None, 50, true);
    LoanSpellings();
    SystemOwner(off);
    SystemOwner(on);
    EqualKeys(off, on);
    SurvivorOfTwo(off, on);
    SystemOwner(other);
    OtherHeading(other, off);
    EqualKeys(other, off);
    group, key, texts := [off, on], Key(off), Texts("loan", "loan");
    var m := MergedRule(group, key);
    SomeText(m, test);
    SomeText(other, test);
    assert Fires(group + [other], other, texts, test) && Fires([m] + [other], m, texts, test);
    assert Wins(group + [other], other, texts, test) && Wins([m] + [other], m, texts, test);
  }

  lemma {:induction false} SystemOwner(rule: Rule)
    requires rule.businessId == None
    ensures Owner(rule) == "system" && NoColon(Owner(rule))
  {
  }

  lemma LoanSpellings()
    ensures Normalize("loan received") == "Loan Borrowed" && Normalize("Loan Borrowed") == "Loan Borrowed"
  {
    hide Trim, Lower, ALIASES;
    LoansInLowerCase();
    LoanReceived();
    LoanAliases();
  }

  lemma LoanAliases()
    ensures "loan received" in ALIASES && "loan borrowed" in ALIASES
    ensures ALIASES["loan received"] == "Loan Borrowed" && ALIASES["loan borrowed"] == "Loan Borrowed"
  {
  }

  lemma LoanReceived()
    ensures Trim("loan received") == "loan received" && Trim("Loan Borrowed") == "Loan Borrowed"
    ensures Lower("loan received") == "loan received"
  {
  }

  lemma {:induction false} OtherHeading(other: Rule, off: Rule)
    requires other.category == off.category && other.subCategory == "Loan Repaid" && off.subCategory == "loan received"
    ensures Heading(other) != Heading(off)
  {
    hide Lower, Trim, Normalize;
    LoanSpellings();
    RepaidSpelling();
    LoansInLowerCase();
    assert |Heading(other)| < |Heading(off)|;
  }

  lemma RepaidSpelling()
    ensures Normalize("Loan Repaid") == "Loan Repaid"
  {
    hide Lower;
    LoansInLowerCase();
  }
}
