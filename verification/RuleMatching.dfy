/**
 Which transactions a rule classifies (`applyRules`), and what the merge of the legacy rules does to that.  The regular
 expression engine is a given test of a pattern on a text, false for a pattern it cannot read.
 */
module RuleMatching {
  import opened Ascii
  import opened LegacyRules
  import opened Options
  import opened RuleKeys
  import opened SubCategories
  import opened Substrings

  type RegexTest = (string, string) -> bool

  datatype Texts = Texts(description: string, name: string)

  predicate TextMatches(rule: Rule, text: string, test: RegexTest) {
    var value := Lower(rule.matchValue);
    match rule.matchType
    case CONTAINS => Includes(text, value)
    case STARTS_WITH => value <= text
    case EXACT => text == value
    case REGEX => test(rule.matchValue, text)
  }

  // The value is lower-cased but not trimmed; a pattern is used as it is.
  predicate Matches(rule: Rule, texts: Texts, test: RegexTest) {
    TextMatches(rule, Lower(texts.description), test) || TextMatches(rule, Lower(texts.name), test)
  }

  // What a matching rule assigns, as it is spelled: the IDs are looked up by exactly these names.
  function Outcome(rule: Rule): (string, string) {
    (rule.category, rule.subCategory)
  }

  function Classify(rule: Rule, texts: Texts, test: RegexTest): Option<(string, string)> {
    if Matches(rule, texts, test) then Some(Outcome(rule)) else None
  }

  ghost predicate ClassifyAlike(p: Rule, q: Rule, test: RegexTest) {
    forall texts :: Classify(p, texts, test) == Classify(q, texts, test)
  }

  // ---------- Matching, letter by letter ----------

  // The value of a rule stands at this place of a text, up to letter case.
  predicate StandsAt(value: string, text: string, i: nat) {
    i + |value| <= |text| && SameUpToCase(text[i..i + |value|], value)
  }

  lemma {:induction false} LowerAt(value: string, text: string, i: nat)
    ensures IncludedAt(Lower(text), Lower(value), i) <==> StandsAt(value, text, i)
  {
    if i + |value| <= |text| {
      CasesDecide(text[i..i + |value|], value);
      assert Lower(text)[i..i + |value|] == Lower(text[i..i + |value|]);
    }
  }

  // A text matches by its letters: anywhere, at its start, or as a whole.
  lemma {:induction false} TextMatchesIs(rule: Rule, text: string, test: RegexTest)
    ensures rule.matchType == CONTAINS ==>
              (TextMatches(rule, Lower(text), test)
               <==> exists i: nat :: i <= |text| && StandsAt(rule.matchValue, text, i))
    ensures rule.matchType == STARTS_WITH ==>
              (TextMatches(rule, Lower(text), test) <==> StandsAt(rule.matchValue, text, 0))
    ensures rule.matchType == EXACT ==>
              (TextMatches(rule, Lower(text), test) <==> SameUpToCase(text, rule.matchValue))
    ensures rule.matchType == REGEX ==> (TextMatches(rule, Lower(text), test) <==> test(rule.matchValue, Lower(text)))
  {
    hide StandsAt, SameUpToCase;
    forall i: nat ensures IncludedAt(Lower(text), Lower(rule.matchValue), i) <==> StandsAt(rule.matchValue, text, i) {
      LowerAt(rule.matchValue, text, i);
    }
    CasesDecide(text, rule.matchValue);
    PrefixIsAtStart(Lower(text), Lower(rule.matchValue));
  }

  lemma {:induction false} PrefixIsAtStart(text: string, part: string)
    ensures part <= text <==> IncludedAt(text, part, 0)
  {
  }

  // A rule matches a transaction by its description or its name.
  lemma {:induction false} EitherText(rule: Rule, texts: Texts, test: RegexTest)
    ensures Matches(rule, texts, test)
       <==> Matches(rule, Texts(texts.description, texts.description), test)
            || Matches(rule, Texts(texts.name, texts.name), test)
    ensures Matches(rule, Texts(texts.name, texts.description), test) == Matches(rule, texts, test)
    ensures Matches(rule, Texts(texts.name, texts.name), test) <==> TextMatches(rule, Lower(texts.name), test)
  {
    hide TextMatches;
  }

  // ---------- The rule a transaction gets ----------

  // The first rule that matches, in the order of the list.
  method ApplyRules(texts: Texts, rules: seq<Rule>, test: RegexTest) returns (matched: Option<Rule>)
    ensures matched.None? <==> forall r :: r in rules ==> !Matches(r, texts, test)
    ensures matched.Some? ==>
              exists k :: 0 <= k < |rules| && rules[k] == matched.value && Matches(rules[k], texts, test)
                && forall j :: 0 <= j < k ==> !Matches(rules[j], texts, test)
  {
    hide Matches;
    for i := 0 to |rules|
      invariant forall j :: 0 <= j < i ==> !Matches(rules[j], texts, test)
    {
      if Matches(rules[i], texts, test) { return Some(rules[i]); }
    }
    matched := None;
  }

  ghost predicate Fires(rules: seq<Rule>, r: Rule, texts: Texts, test: RegexTest) {
    r in rules && r.isActive && Matches(r, texts, test)
  }

  // Active rules are read by ascending priority, so a transaction gets a firing rule of least priority.
  ghost predicate Wins(rules: seq<Rule>, r: Rule, texts: Texts, test: RegexTest) {
    && Fires(rules, r, texts, test)
    && forall q :: Fires(rules, q, texts, test) ==> r.priority <= q.priority
  }

  // The outcomes that a table of rules may give to a transaction.
  ghost predicate Assigns(rules: seq<Rule>, texts: Texts, test: RegexTest, outcome: (string, string)) {
    exists r :: Wins(rules, r, texts, test) && Outcome(r) == outcome
  }

  // Reading the active rules of a table in ascending priority, the loop finds a winner.
  lemma {:induction false} FirstMatchWins(rules: seq<Rule>, read: seq<Rule>, texts: Texts, test: RegexTest, k: nat)
    requires forall r :: r in read <==> r in rules && r.isActive
    requires forall i, j :: 0 <= i < j < |read| ==> read[i].priority <= read[j].priority
    requires k < |read| && Matches(read[k], texts, test) && forall j :: 0 <= j < k ==> !Matches(read[j], texts, test)
    ensures Wins(rules, read[k], texts, test)
  {
    hide Matches;
    forall q | Fires(rules, q, texts, test) ensures read[k].priority <= q.priority {
      var j :| 0 <= j < |read| && read[j] == q;
    }
  }

  // ---------- When two rules match the same texts ----------

  lemma {:induction false} MatchesItself(rule: Rule, test: RegexTest)
    requires rule.matchType != REGEX
    ensures TextMatches(rule, Lower(rule.matchValue), test)
  {
    hide Lower;
    var value := Lower(rule.matchValue);
    assert value[0..0 + |value|] == value;
    assert IncludedAt(value, value, 0);
  }

  // A rule that matches the value of another has a value no longer than it, and the same when equally long.
  lemma {:induction false} MatchedValue(p: Rule, q: Rule, test: RegexTest)
    requires p.matchType != REGEX && TextMatches(p, Lower(q.matchValue), test)
    ensures |Lower(p.matchValue)| <= |Lower(q.matchValue)|
    ensures |Lower(p.matchValue)| == |Lower(q.matchValue)| ==> Lower(p.matchValue) == Lower(q.matchValue)
  {
    hide Lower;
  }

  lemma {:induction false} SameValueSameTexts(p: Rule, q: Rule, texts: Texts, test: RegexTest)
    requires p.matchType == q.matchType
    requires if p.matchType == REGEX then p.matchValue == q.matchValue else Lower(p.matchValue) == Lower(q.matchValue)
    ensures Matches(p, texts, test) == Matches(q, texts, test)
  {
    hide Lower, Includes;
  }

  // Two rules of one type other than REGEX match the same texts exactly when their values agree in lower case.
  lemma {:induction false} SameTextsIffSameValue(p: Rule, q: Rule, test: RegexTest)
    requires p.matchType == q.matchType != REGEX
    ensures (forall texts :: Matches(p, texts, test) == Matches(q, texts, test))
       <==> Lower(p.matchValue) == Lower(q.matchValue)
  {
    hide TextMatches, Lower;
    if Lower(p.matchValue) == Lower(q.matchValue) {
      forall texts ensures Matches(p, texts, test) == Matches(q, texts, test) {
        SameValueSameTexts(p, q, texts, test);
      }
    } else {
      MatchesItself(p, test);
      MatchesItself(q, test);
      var ofP, ofQ := Texts(p.matchValue, p.matchValue), Texts(q.matchValue, q.matchValue);
      assert Matches(p, ofP, test) && Matches(q, ofQ, test);
      if Matches(p, ofQ, test) && Matches(q, ofP, test) {
        MatchedValue(p, q, test);
        MatchedValue(q, p, test);
      }
    }
  }

  // Two patterns match the same texts under every engine exactly when they are the same string.
  lemma {:induction false} SameTextsIffSamePattern(p: Rule, q: Rule)
    requires p.matchType == REGEX && q.matchType == REGEX
    ensures (forall test: RegexTest, texts :: Matches(p, texts, test) == Matches(q, texts, test))
       <==> p.matchValue == q.matchValue
  {
    if p.matchValue == q.matchValue {
      forall test: RegexTest, texts ensures Matches(p, texts, test) == Matches(q, texts, test) {
        SameValueSameTexts(p, q, texts, test);
      }
    } else {
      var test: RegexTest := (pattern, text) => pattern == p.matchValue;
      assert Matches(p, Texts("", ""), test) != Matches(q, Texts("", ""), test);
    }
  }

  // ---------- Rules of one key ----------

  // The blanks around a value.
  function Leading(s: string): string {
    if s != "" && IsSpace(s[0]) then [s[0]] + Leading(s[1..]) else ""
  }

  function Trailing(s: string): string {
    if s != "" && IsSpace(s[|s| - 1]) then Trailing(s[..|s| - 1]) + [s[|s| - 1]] else ""
  }

  lemma {:induction false} StartParts(s: string)
    ensures s == Leading(s) + TrimStart(s)
    ensures TrimStart(Lower(s)) == Lower(TrimStart(s)) && Leading(Lower(s)) == Leading(s)
  {
    if s != "" && IsSpace(s[0]) {
      StartParts(s[1..]);
      assert Lower(s)[1..] == Lower(s[1..]);
      assert s == [s[0]] + s[1..];
    }
  }

  lemma {:induction false} EndParts(s: string)
    ensures s == TrimEnd(s) + Trailing(s)
    ensures TrimEnd(Lower(s)) == Lower(TrimEnd(s)) && Trailing(Lower(s)) == Trailing(s)
  {
    if s != "" && IsSpace(s[|s| - 1]) {
      EndParts(s[..|s| - 1]);
      assert Lower(s)[..|s| - 1] == Lower(s[..|s| - 1]);
      assert s == s[..|s| - 1] + [s[|s| - 1]];
    }
  }

  function Blanks(s: string): (string, string) {
    (Leading(s), Trailing(TrimStart(s)))
  }

  // Values that agree once trimmed and in lower case agree in lower case exactly when their blanks do.
  lemma {:induction false} OnlyBlanksDiffer(v: string, w: string)
    requires Lower(Trim(v)) == Lower(Trim(w))
    ensures Lower(v) == Lower(w) <==> Blanks(v) == Blanks(w)
  {
    hide Lower, Leading, Trailing, TrimStart, TrimEnd;
    StartParts(v);
    StartParts(w);
    EndParts(TrimStart(v));
    EndParts(TrimStart(w));
    if Blanks(v) == Blanks(w) {
      LowerOfParts(Leading(v), Trim(v), Trailing(TrimStart(v)));
      LowerOfParts(Leading(w), Trim(w), Trailing(TrimStart(w)));
    }
  }

  lemma {:induction false} LowerOfParts(a: string, b: string, c: string)
    ensures Lower(a + (b + c)) == Lower(a) + (Lower(b) + Lower(c))
  {
  }

  // Rules of one key classify alike exactly when the blanks around their values, their categories and their
  // sub-categories agree; for patterns, equal patterns suffice.
  lemma {:induction false} OneKeyClassifiesAlike(p: Rule, q: Rule, test: RegexTest)
    requires NoColon(Owner(p)) && NoColon(Owner(q)) && Key(p) == Key(q) && p.matchType != REGEX
    ensures ClassifyAlike(p, q, test) <==> Blanks(p.matchValue) == Blanks(q.matchValue) && Outcome(p) == Outcome(q)
  {
    hide Key, Matches, Outcome, Blanks, Lower, Heading, Owner, NoColon;
    EqualKeys(p, q);
    OnlyBlanksDiffer(p.matchValue, q.matchValue);
    SameTextsIffSameValue(p, q, test);
    var ofP := Texts(p.matchValue, p.matchValue);
    SomeText(p, test);
    if ClassifyAlike(p, q, test) {
      assert Classify(p, ofP, test) == Classify(q, ofP, test);
      forall texts ensures Matches(p, texts, test) == Matches(q, texts, test) {
        assert Classify(p, texts, test) == Classify(q, texts, test);
      }
    }
  }

  lemma {:induction false} SomeText(rule: Rule, test: RegexTest)
    requires rule.matchType != REGEX
    ensures Matches(rule, Texts(rule.matchValue, rule.matchValue), test)
  {
    hide TextMatches, Lower;
    MatchesItself(rule, test);
  }

  lemma {:induction false} OnePatternClassifiesAlike(p: Rule, q: Rule, test: RegexTest)
    requires p.matchType == REGEX && q.matchType == REGEX && p.matchValue == q.matchValue && Outcome(p) == Outcome(q)
    ensures ClassifyAlike(p, q, test)
  {
    hide Matches, Outcome;
    forall texts ensures Classify(p, texts, test) == Classify(q, texts, test) { SameValueSameTexts(p, q, texts, test); }
  }
}
