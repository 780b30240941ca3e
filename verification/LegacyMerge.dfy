/** What the merge of the legacy rules leaves, and that it settles in one run. */
module LegacyMerge {
  import opened Ascii
  import opened LegacyRules
  import opened Options
  import opened SubCategories

  // ---------- One rule per key ----------

  lemma {:induction false} MergedRuleKey(rules: seq<Rule>, key: string)
    requires First(rules, key) < |rules|
    ensures Key(MergedRule(rules, key)) == key
  {
    hide Normalize, AnyActive, LeastPriority, Lower, Trim;
    FirstIsFirst(rules, key);
    NormalizeTwice(rules[First(rules, key)].subCategory);
  }

  // The position the `a`-th rule left by the merge had before.
  ghost function Origin(rules: seq<Rule>, a: nat): (j: nat)
    requires a < |Merged(rules)|
    ensures j < |rules|
  {
    Survivors(rules, |rules|)[a]
  }

  lemma {:induction false} MergedAt(rules: seq<Rule>, a: nat)
    requires a < |Merged(rules)|
    ensures var key := Key(rules[Origin(rules, a)]);
            && First(rules, key) == Origin(rules, a)
            && Merged(rules)[a] == MergedRule(rules, key)
            && Key(Merged(rules)[a]) == key
            && Merged(rules)[a].id == rules[Origin(rules, a)].id
  {
    hide Key, First;
    SurvivorsAre(rules, |rules|, Origin(rules, a));
    MergedRuleKey(rules, Key(rules[Origin(rules, a)]));
  }

  lemma {:induction false} OneRulePerKey(rules: seq<Rule>)
    ensures forall a, b :: 0 <= a < b < |Merged(rules)| ==> Key(Merged(rules)[a]) != Key(Merged(rules)[b])
    ensures UniqueIds(rules) ==> UniqueIds(Merged(rules))
  {
    hide Key, First, Merged;
    forall a, b | 0 <= a < b < |Merged(rules)|
      ensures Key(Merged(rules)[a]) != Key(Merged(rules)[b])
      ensures UniqueIds(rules) ==> Merged(rules)[a].id != Merged(rules)[b].id
    {
      MergedAt(rules, a);
      MergedAt(rules, b);
      OriginsIncrease(rules, a, b);
    }
  }

  lemma {:induction false} OriginsIncrease(rules: seq<Rule>, a: nat, b: nat)
    requires a < b < |Merged(rules)|
    ensures Origin(rules, a) < Origin(rules, b)
  {
    SurvivorsIncrease(rules, |rules|);
  }

  // ---------- The survivor of a group ----------

  lemma {:induction false} LeastPriorityIsLeast(rules: seq<Rule>, key: string)
    requires First(rules, key) < |rules|
    ensures forall r :: r in rules && Key(r) == key ==> LeastPriority(rules, key) <= r.priority
    ensures exists r :: r in rules && Key(r) == key && LeastPriority(rules, key) == r.priority
  {
    hide Key;
    var n := |rules| - 1;
    assert rules == rules[..n] + [rules[n]];
    assert rules[n] in rules;
    FirstGrows(rules[..n], rules[n], key);
    if First(rules[..n], key) < n {
      LeastPriorityIsLeast(rules[..n], key);
      var r :| r in rules[..n] && Key(r) == key && LeastPriority(rules[..n], key) == r.priority;
      assert r in rules;
    } else {
      FirstMissing(rules[..n], key);
      FirstIsFirst(rules, key);
    }
  }

  // Every rule has one survivor: the oldest of its key, active when any of them is, at their least priority.
  lemma {:induction false} SurvivorOf(rules: seq<Rule>, r: Rule) returns (a: nat)
    requires r in rules
    ensures a < |Merged(rules)| && Key(Merged(rules)[a]) == Key(r)
    ensures forall j :: 0 <= j < Origin(rules, a) ==> Key(rules[j]) != Key(r)
    ensures Merged(rules)[a].id == rules[Origin(rules, a)].id
    ensures Merged(rules)[a].isActive <==> exists q :: q in rules && Key(q) == Key(r) && q.isActive
    ensures forall q :: q in rules && Key(q) == Key(r) ==> Merged(rules)[a].priority <= q.priority
    ensures exists q :: q in rules && Key(q) == Key(r) && Merged(rules)[a].priority == q.priority
  {
    hide Key, First, LeastPriority;
    var i: nat :| i < |rules| && rules[i] == r;
    FirstBounds(rules, i);
    FirstIsFirst(rules, Key(r));
    var f := First(rules, Key(r));
    SurvivorsAre(rules, |rules|, f);
    a :| 0 <= a < |Survivors(rules, |rules|)| && Survivors(rules, |rules|)[a] == f;
    MergedAt(rules, a);
    NoneBefore(rules, Key(r));
    LeastPriorityIsLeast(rules, Key(r));
  }

  lemma {:induction false} NoneBefore(rules: seq<Rule>, key: string)
    ensures forall j :: 0 <= j < First(rules, key) ==> Key(rules[j]) != key
  {
  }

  // ---------- Links ----------

  // A link to any rule leads to the survivor of its key; a link to no system rule stays.
  lemma {:induction false} LinksLeadToSurvivors(rules: seq<Rule>, target: Option<RuleId>)
    requires UniqueIds(rules)
    ensures forall j: nat :: j < |rules| && target == Some(rules[j].id) ==>
              exists a :: 0 <= a < |Merged(rules)|
                && Target(rules, target) == Some(Merged(rules)[a].id) && Key(Merged(rules)[a]) == Key(rules[j])
    ensures (forall j: nat :: j < |rules| ==> target != Some(rules[j].id)) ==> Target(rules, target) == target
  {
    hide Key, First, Merged, Target;
    forall j: nat | j < |rules| && target == Some(rules[j].id)
      ensures exists a :: 0 <= a < |Merged(rules)|
                && Target(rules, target) == Some(Merged(rules)[a].id) && Key(Merged(rules)[a]) == Key(rules[j])
    {
      var a := SurvivorOf(rules, rules[j]);
      TargetIs(rules, j);
      MergedAt(rules, a);
    }
    if forall j: nat :: j < |rules| ==> target != Some(rules[j].id) { OtherLinksStay(rules, target); }
  }

  lemma {:induction false} OtherLinksStay(rules: seq<Rule>, target: Option<RuleId>)
    requires forall j: nat :: j < |rules| ==> target != Some(rules[j].id)
    ensures Target(rules, target) == target
  {
  }

  // ---------- A second run writes nothing ----------

  lemma {:induction false} MergedIsCanonical(rules: seq<Rule>, a: nat)
    requires a < |Merged(rules)|
    ensures Normalize(Merged(rules)[a].subCategory) == Merged(rules)[a].subCategory
  {
    hide Key, First, Normalize;
    MergedAt(rules, a);
    NormalizeTwice(rules[Origin(rules, a)].subCategory);
  }

  // Rules with distinct keys all survive, and those spelled canonically are left as they are.
  lemma {:induction false} DistinctStay(rules: seq<Rule>)
    requires forall a, b :: 0 <= a < b < |rules| ==> Key(rules[a]) != Key(rules[b])
    requires forall a :: 0 <= a < |rules| ==> Normalize(rules[a].subCategory) == rules[a].subCategory
    ensures Merged(rules) == rules && TouchedRules(rules) == {}
  {
    hide Key, First, Normalize, MergedRule;
    forall a | 0 <= a < |rules| ensures Survives(rules, a) && MergedRule(rules, Key(rules[a])) == rules[a] {
      FirstBounds(rules, a);
      FirstIsFirst(rules, Key(rules[a]));
      UntouchedIsMerged(rules, a);
    }
    AllSurvive(rules, |rules|);
  }

  lemma {:induction false} AllSurvive(rules: seq<Rule>, n: nat)
    requires n <= |rules| && forall a :: 0 <= a < |rules| ==> Survives(rules, a)
    ensures Survivors(rules, n) == seq(n, a => a)
  {
    hide Survives;
    if n > 0 { AllSurvive(rules, n - 1); }
  }

  // Merging what a merge left changes no rule, counts none as written back or removed, and moves no link.
  lemma {:induction false} SecondRunWritesNothing(rules: seq<Rule>, target: Option<RuleId>)
    requires UniqueIds(rules)
    ensures var merged := Merged(rules);
            && UniqueIds(merged) && Merged(merged) == merged && TouchedRules(merged) == {}
            && Target(merged, Target(rules, target)) == Target(rules, target)
  {
    hide Key, First, Merged, Normalize, Target, TouchedRules;
    var merged := Merged(rules);
    OneRulePerKey(rules);
    forall a | 0 <= a < |merged| ensures Normalize(merged[a].subCategory) == merged[a].subCategory {
      MergedIsCanonical(rules, a);
    }
    DistinctStay(merged);
    LinkStays(merged, Target(rules, target));
  }

  lemma {:induction false} LinkStays(rules: seq<Rule>, target: Option<RuleId>)
    requires UniqueIds(rules) && Merged(rules) == rules
    ensures Target(rules, target) == target
  {
    hide Key, First, Merged, Target;
    if j: nat :| j < |rules| && target == Some(rules[j].id) {
      TargetIs(rules, j);
      MergedAt(rules, j);
      OriginIsSelf(rules, j);
    } else {
      OtherLinksStay(rules, target);
    }
  }

  lemma {:induction false} OriginIsSelf(rules: seq<Rule>, j: nat)
    requires UniqueIds(rules) && Merged(rules) == rules && j < |rules|
    ensures Origin(rules, j) == j
  {
    hide Key, First, Merged, Origin;
    MergedAt(rules, j);
    SameRule(rules, Origin(rules, j), j);
  }
}
