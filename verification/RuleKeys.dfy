/** What the merge key of a legacy rule tells apart. */
module RuleKeys {
  import opened Ascii
  import opened LegacyRules
  import opened Options
  import opened SubCategories
  import opened Substrings

  predicate NoColon(s: string) {
    ':' !in s
  }

  // The five parts that go into a key.
  predicate SameParts(p: Rule, q: Rule) {
    && Lower(p.category) == Lower(q.category)
    && Lower(Normalize(p.subCategory)) == Lower(Normalize(q.subCategory))
    && SameRest(p, q)
  }

  predicate SameRest(p: Rule, q: Rule) {
    && p.matchType == q.matchType
    && Lower(Trim(p.matchValue)) == Lower(Trim(q.matchValue))
    && Owner(p) == Owner(q)
  }

  predicate NoBusiness(rule: Rule) {
    rule.businessId == None || rule.businessId == Some("")
  }

  // The owners of two rules agree exactly when their businesses do, as long as no business is called "system".
  lemma {:induction false} OwnersAgree(p: Rule, q: Rule)
    requires p.businessId != Some("system") && q.businessId != Some("system")
    ensures Owner(p) == Owner(q) <==> p.businessId == q.businessId || (NoBusiness(p) && NoBusiness(q))
  {
  }

  // The front of a key, which lower-casing keeps apart from the upper-case match type behind it.
  function Heading(rule: Rule): string {
    Lower(rule.category) + ":" + Lower(Normalize(rule.subCategory))
  }

  function Tail(rule: Rule): string {
    rule.matchType.Name() + ":" + Lower(Trim(rule.matchValue))
  }

  // ---------- Splitting joined strings ----------

  lemma {:induction false} LastColonFirst(a: string, x: string, b: string, y: string)
    requires NoColon(x) && a + ":" + x == b + ":" + y
    ensures |b| <= |a|
  {
    var whole := a + ":" + x;
    assert forall k :: |a| < k < |whole| ==> whole[k] == x[k - |a| - 1];
    assert whole[|b|] == ':';
  }

  lemma {:induction false} SplitAtLastColon(a: string, x: string, b: string, y: string)
    requires NoColon(x) && NoColon(y) && a + ":" + x == b + ":" + y
    ensures a == b && x == y
  {
    hide NoColon;
    LastColonFirst(a, x, b, y);
    LastColonFirst(b, y, a, x);
    var whole, other := a + ":" + x, b + ":" + y;
    assert whole[..|a|] == a && other[..|b|] == b;
    assert whole[|a| + 1..] == x && other[|b| + 1..] == y;
  }

  predicate IsUpper(c: char) {
    'A' <= c <= 'Z'
  }

  lemma {:induction false} UpperFirst(a: string, x: string, b: string, y: string)
    requires x != "" && IsUpper(x[0]) && a + ":" + x == b + ":" + y
    requires forall k :: 0 <= k < |b| ==> !IsUpper(b[k])
    ensures |b| <= |a|
  {
    var whole, other := a + ":" + x, b + ":" + y;
    assert whole[|a| + 1] == x[0];
    assert forall k :: 0 <= k < |b| ==> other[k] == b[k];
    assert other[|b|] == ':';
  }

  // A front without upper case ends at the colon before the first upper-case letter.
  lemma {:induction false} SplitAtUpper(a: string, x: string, b: string, y: string)
    requires x != "" && IsUpper(x[0]) && y != "" && IsUpper(y[0])
    requires forall k :: 0 <= k < |a| ==> !IsUpper(a[k])
    requires forall k :: 0 <= k < |b| ==> !IsUpper(b[k])
    requires a + ":" + x == b + ":" + y
    ensures a == b && x == y
  {
    hide IsUpper;
    UpperFirst(a, x, b, y);
    UpperFirst(b, y, a, x);
    var whole, other := a + ":" + x, b + ":" + y;
    assert whole[..|a|] == a && other[..|b|] == b;
    assert whole[|a| + 1..] == x && other[|b| + 1..] == y;
  }

  lemma {:induction false} HeadingIsLower(rule: Rule)
    ensures forall k :: 0 <= k < |Heading(rule)| ==> !IsUpper(Heading(rule)[k])
  {
    hide Normalize;
  }

  lemma {:induction false} NamesDiffer(t: MatchType, u: MatchType)
    ensures t.Name() != "" && IsUpper(t.Name()[0]) && NoColon(t.Name())
    ensures t.Name() == u.Name() <==> t == u
  {
  }

  lemma {:induction false} TailStartsUpper(rule: Rule)
    ensures Tail(rule) != "" && IsUpper(Tail(rule)[0])
  {
    hide Lower, Trim;
    NamesDiffer(rule.matchType, rule.matchType);
  }

  lemma {:induction false} KeyShape(rule: Rule)
    ensures Key(rule) == (Heading(rule) + ":" + Tail(rule)) + ":" + Owner(rule)
  {
    hide Lower, Normalize, Trim, Owner;
    var a, b := Lower(rule.category), Lower(Normalize(rule.subCategory));
    var c, d := rule.matchType.Name(), Lower(Trim(rule.matchValue));
    assert a + ":" + b + ":" + c + ":" + d == a + ":" + b + ":" + (c + ":" + d);
  }

  // ---------- What equal keys mean ----------

  // An owner is a UUID or "system", so it holds no colon.  Keys are then equal exactly when category and
  // sub-category agree once joined, and the other three parts agree.
  lemma {:induction false} EqualKeys(p: Rule, q: Rule)
    requires NoColon(Owner(p)) && NoColon(Owner(q))
    ensures Key(p) == Key(q) <==> Heading(p) == Heading(q) && SameRest(p, q)
  {
    hide Key, Heading, Owner, NoColon, Lower, Trim;
    KeyShape(p);
    KeyShape(q);
    TailsDiffer(p, q);
    if Key(p) == Key(q) {
      SplitAtLastColon(Heading(p) + ":" + Tail(p), Owner(p), Heading(q) + ":" + Tail(q), Owner(q));
      HeadingIsLower(p);
      HeadingIsLower(q);
      TailStartsUpper(p);
      TailStartsUpper(q);
      SplitAtUpper(Heading(p), Tail(p), Heading(q), Tail(q));
    }
  }

  lemma {:induction false} TailsDiffer(p: Rule, q: Rule)
    ensures Tail(p) == Tail(q) <==> p.matchType == q.matchType && Lower(Trim(p.matchValue)) == Lower(Trim(q.matchValue))
  {
    hide Lower, Trim, NoColon;
    NamesDiffer(p.matchType, q.matchType);
    NamesDiffer(q.matchType, p.matchType);
    if Tail(p) == Tail(q) {
      SplitAtFirstColon(p.matchType.Name(), Lower(Trim(p.matchValue)), q.matchType.Name(), Lower(Trim(q.matchValue)));
    }
  }

  // Among equal keys the parts agree exactly when the categories are equally long.
  lemma {:induction false} EqualKeysSameParts(p: Rule, q: Rule)
    requires NoColon(Owner(p)) && NoColon(Owner(q)) && Key(p) == Key(q)
    ensures SameParts(p, q) <==> |p.category| == |q.category|
  {
    hide Key, Normalize, Trim, NoColon, Owner;
    EqualKeys(p, q);
    LowerKeepsLength(p.category);
    LowerKeepsLength(q.category);
    if |p.category| == |q.category| {
      SplitAtLength(Lower(p.category), Lower(Normalize(p.subCategory)),
                    Lower(q.category), Lower(Normalize(q.subCategory)));
    }
  }

  lemma {:induction false} LowerKeepsLength(s: string)
    ensures |Lower(s)| == |s|
  {
  }

  lemma {:induction false} SplitAtLength(a: string, x: string, b: string, y: string)
    requires |a| == |b| && a + ":" + x == b + ":" + y
    ensures a == b && x == y
  {
    var whole, other := a + ":" + x, b + ":" + y;
    assert whole[..|a|] == a && other[..|b|] == b;
    assert whole[|a| + 1..] == x && other[|b| + 1..] == y;
  }

  // Categories without a colon are always told apart, whatever the sub-categories hold.
  lemma {:induction false} ColonFreeCategories(p: Rule, q: Rule)
    requires NoColon(Owner(p)) && NoColon(Owner(q)) && NoColon(p.category) && NoColon(q.category)
    ensures Key(p) == Key(q) <==> SameParts(p, q)
  {
    hide Key, Normalize, Trim, Owner, Lower, NoColon;
    EqualKeys(p, q);
    if Heading(p) == Heading(q) {
      LowerHasNoColon(p.category);
      LowerHasNoColon(q.category);
      SplitAtFirstColon(Lower(p.category), Lower(Normalize(p.subCategory)),
                        Lower(q.category), Lower(Normalize(q.subCategory)));
    }
  }

  lemma {:induction false} LowerHasNoColon(s: string)
    requires NoColon(s)
    ensures NoColon(Lower(s))
  {
  }

  // The values of `AccountCategoryType`: every writer of system rules stores one of them.
  const CATEGORY_TYPES: set<string> := {"INCOME", "COGS", "EXPENSE", "ASSET", "LIABILITY", "EQUITY", "TRANSFER"}

  lemma {:induction false} CategoryTypesDiffer(c: string, d: string)
    requires c in CATEGORY_TYPES && d in CATEGORY_TYPES
    ensures NoColon(c) && (Lower(c) == Lower(d) <==> c == d)
  {
    if Lower(c) == Lower(d) { UpperIsInjective(c, d); }
  }

  lemma {:induction false} UpperIsInjective(c: string, d: string)
    requires (forall k :: 0 <= k < |c| ==> IsUpper(c[k])) && (forall k :: 0 <= k < |d| ==> IsUpper(d[k]))
    requires Lower(c) == Lower(d)
    ensures c == d
  {
    assert |Lower(c)| == |c| && |Lower(d)| == |d|;
    forall k | 0 <= k < |c| ensures c[k] == d[k] {
      assert Lower(c)[k] == LowerChar(c[k]) && Lower(d)[k] == LowerChar(d[k]);
    }
  }

  // So among system rules as they are written, equal keys mean equal parts, and the very same category.
  lemma {:induction false} SystemRuleKeys(p: Rule, q: Rule)
    requires p.category in CATEGORY_TYPES && q.category in CATEGORY_TYPES
    requires NoColon(Owner(p)) && NoColon(Owner(q))
    ensures Key(p) == Key(q) <==> SameParts(p, q)
    ensures SameParts(p, q) ==> p.category == q.category
  {
    hide Key, Normalize, Trim, Owner, Lower, NoColon, CATEGORY_TYPES;
    CategoryTypesDiffer(p.category, q.category);
    CategoryTypesDiffer(q.category, p.category);
    ColonFreeCategories(p, q);
  }

  // A category with a colon, which no writer stores, could share a key with another one.
  lemma ColonExample() returns (p: Rule, q: Rule)
    ensures NoColon(Owner(p)) && NoColon(Owner(q)) && p.category !in CATEGORY_TYPES
    ensures Key(p) == Key(q) && !SameParts(p, q)
  {
    p := Rule(0, "a", "b:c", EXACT, "x", None, 1, true);
    q := Rule(1, "a:b", "c", EXACT, "x", None, 1, true);
    hide Key, Lower, Normalize, Trim, CATEGORY_TYPES;
    PlainNames();
    EqualKeys(p, q);
    assert "a" + ":" + "b:c" == "a:b" + ":" + "c";
  }

  lemma PlainNames()
    ensures Normalize("b:c") == "b:c" && Normalize("c") == "c" && "a" !in CATEGORY_TYPES
    ensures Lower("a") == "a" && Lower("b:c") == "b:c" && Lower("a:b") == "a:b" && Lower("c") == "c"
  {
  }
}
