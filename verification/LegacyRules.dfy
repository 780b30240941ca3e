/** Merging the legacy system rules (`reconcileLegacyRuleGroups`): the rules of one key become the oldest of them. */
module LegacyRules {
  import opened Ascii
  import opened Integers
  import opened Options
  import opened Sequences
  import opened SubCategories

  datatype MatchType = CONTAINS | STARTS_WITH | EXACT | REGEX {
    function Name(): string {
      match this
      case CONTAINS => "CONTAINS"
      case STARTS_WITH => "STARTS_WITH"
      case EXACT => "EXACT"
      case REGEX => "REGEX"
    }
  }

  type RuleId = nat
  type TransactionId = nat

  datatype Rule = Rule(id: RuleId, category: string, subCategory: string, matchType: MatchType, matchValue: string,
                       businessId: Option<string>, priority: int, isActive: bool)

  function Owner(rule: Rule): string {
    if rule.businessId.Some? && rule.businessId.value != "" then rule.businessId.value else "system"
  }

  // The key a rule is grouped by: its five parts joined with ":".
  function Key(rule: Rule): string {
    Lower(rule.category) + ":" + Lower(Normalize(rule.subCategory)) + ":" + rule.matchType.Name() + ":"
    + Lower(Trim(rule.matchValue)) + ":" + Owner(rule)
  }

  ghost predicate UniqueIds(rules: seq<Rule>) {
    forall i, j :: 0 <= i < j < |rules| ==> rules[i].id != rules[j].id
  }

  // ---------- What a merge leaves ----------

  // The position of the oldest rule with this key.
  function First(rules: seq<Rule>, key: string): (f: nat)
    ensures f <= |rules|
    ensures f < |rules| ==> Key(rules[f]) == key
    ensures forall j :: 0 <= j < f ==> Key(rules[j]) != key
  {
    FirstFrom(rules, key, 0)
  }

  function FirstFrom(rules: seq<Rule>, key: string, from: nat): (f: nat)
    requires from <= |rules|
    ensures from <= f <= |rules|
    ensures f < |rules| ==> Key(rules[f]) == key
    ensures forall j :: from <= j < f ==> Key(rules[j]) != key
    decreases |rules| - from
  {
    hide Key;
    if from == |rules| || Key(rules[from]) == key then from else FirstFrom(rules, key, from + 1)
  }

  ghost predicate AnyActive(rules: seq<Rule>, key: string) {
    exists r :: r in rules && Key(r) == key && r.isActive
  }

  function LeastPriority(rules: seq<Rule>, key: string): int
    requires First(rules, key) < |rules|
  {
    var before, last := rules[..|rules| - 1], rules[|rules| - 1];
    if First(before, key) == |before| then last.priority
    else if Key(last) == key then Min(LeastPriority(before, key), last.priority)
    else LeastPriority(before, key)
  }

  ghost function MergedRule(rules: seq<Rule>, key: string): Rule
    requires First(rules, key) < |rules|
  {
    var rule := rules[First(rules, key)];
    rule.(subCategory := Normalize(rule.subCategory),
          isActive := AnyActive(rules, key),
          priority := LeastPriority(rules, key))
  }

  predicate Survives(rules: seq<Rule>, j: nat)
    requires j < |rules|
  {
    First(rules, Key(rules[j])) == j
  }

  // The positions below `n` of the oldest rules of their keys, and of the others.
  function Survivors(rules: seq<Rule>, n: nat): (s: seq<nat>)
    requires n <= |rules|
    ensures forall a :: 0 <= a < |s| ==> s[a] < n
  {
    hide Survives;
    if n == 0 then []
    else
      var before := Survivors(rules, n - 1);
      assert forall a :: 0 <= a < |before| ==> before[a] < n - 1;
      before + if Survives(rules, n - 1) then [n - 1] else []
  }

  function Duplicates(rules: seq<Rule>, n: nat): (d: seq<nat>)
    requires n <= |rules|
    ensures forall a :: 0 <= a < |d| ==> d[a] < n
  {
    hide Survives;
    if n == 0 then []
    else
      var before := Duplicates(rules, n - 1);
      assert forall a :: 0 <= a < |before| ==> before[a] < n - 1;
      before + if Survives(rules, n - 1) then [] else [n - 1]
  }

  lemma {:induction false} SurvivorsAre(rules: seq<Rule>, n: nat, j: nat)
    requires n <= |rules|
    ensures j in Survivors(rules, n) <==> j < n && Survives(rules, j)
    ensures j in Duplicates(rules, n) <==> j < n && !Survives(rules, j)
  {
    hide First, Key;
    if n > 0 { SurvivorsAre(rules, n - 1, j); }
  }

  lemma {:induction false} SurvivorsIncrease(rules: seq<Rule>, n: nat)
    requires n <= |rules|
    ensures forall a, b :: 0 <= a < b < |Survivors(rules, n)| ==> Survivors(rules, n)[a] < Survivors(rules, n)[b]
  {
    hide Survives;
    if n > 0 { SurvivorsIncrease(rules, n - 1); }
  }

  // The rules after the merge: the oldest of each key, in the order they had.
  ghost function Merged(rules: seq<Rule>): seq<Rule> {
    var s := Survivors(rules, |rules|);
    seq(|s|, a requires 0 <= a < |s| => MergedRule(rules, Key(rules[s[a]])))
  }

  // A survivor is written back when its spelling changes or a duplicate joins it.
  ghost predicate Touched(rules: seq<Rule>, j: nat)
    requires j < |rules|
  {
    && Survives(rules, j)
    && (rules[j].subCategory != Normalize(rules[j].subCategory)
        || exists k :: j < k < |rules| && Key(rules[k]) == Key(rules[j]))
  }

  ghost function TouchedRules(rules: seq<Rule>): set<nat> {
    set j | 0 <= j < |rules| && Touched(rules, j)
  }

  // Where a link to a rule leads after the merge: to the oldest rule of the same key.
  ghost function Target(rules: seq<Rule>, target: Option<RuleId>): Option<RuleId> {
    if j: nat :| j < |rules| && target == Some(rules[j].id) then Some(rules[First(rules, Key(rules[j]))].id) else target
  }

  // ---------- One more rule ----------

  lemma {:induction false} FirstGrows(rules: seq<Rule>, rule: Rule, key: string)
    ensures First(rules + [rule], key)
         == if First(rules, key) == |rules| && Key(rule) != key then |rules| + 1 else First(rules, key)
  {
    hide Key, First;
    var longer := rules + [rule];
    var f, g := First(rules, key), First(longer, key);
    assert forall j :: 0 <= j < |rules| ==> longer[j] == rules[j];
    assert f < |rules| ==> Key(longer[f]) == key;
    assert g < |rules| ==> Key(rules[g]) == key;
    assert longer[|rules|] == rule;
  }

  lemma {:induction false} MergedRuleGrows(rules: seq<Rule>, rule: Rule, key: string)
    requires First(rules, key) < |rules|
    ensures First(rules + [rule], key) == First(rules, key)
    ensures Key(rule) != key ==> MergedRule(rules + [rule], key) == MergedRule(rules, key)
    ensures Key(rule) == key ==>
              var merged := MergedRule(rules, key);
              MergedRule(rules + [rule], key)
              == merged.(isActive := merged.isActive || rule.isActive, priority := Min(merged.priority, rule.priority))
  {
    hide Key, First, Normalize;
    var longer := rules + [rule];
    assert longer[..|rules|] == rules;
    FirstGrows(rules, rule, key);
    if AnyActive(rules, key) {
      var r :| r in rules && Key(r) == key && r.isActive;
      assert r in longer;
    }
    if Key(rule) == key && rule.isActive { assert longer[|rules|] == rule; }
  }

  lemma {:induction false} MergedRuleStarts(rules: seq<Rule>, rule: Rule)
    requires First(rules, Key(rule)) == |rules|
    ensures First(rules + [rule], Key(rule)) == |rules|
    ensures MergedRule(rules + [rule], Key(rule)) == rule.(subCategory := Normalize(rule.subCategory))
  {
    hide Key, Normalize;
    var longer := rules + [rule];
    assert longer[..|rules|] == rules;
    FirstGrows(rules, rule, Key(rule));
    if rule.isActive { assert longer[|rules|] == rule && rule in longer; }
    if AnyActive(longer, Key(rule)) {
      var r :| r in longer && Key(r) == Key(rule) && r.isActive;
      var j :| 0 <= j < |longer| && longer[j] == r;
      assert j == |rules|;
    }
  }

  lemma {:induction false} TouchedGrows(rules: seq<Rule>, rule: Rule, j: nat)
    requires j <= |rules|
    ensures Touched(rules + [rule], j)
       <==> if j < |rules| then Touched(rules, j) || (Survives(rules, j) && Key(rule) == Key(rules[j]))
            else First(rules, Key(rule)) == |rules| && rule.subCategory != Normalize(rule.subCategory)
  {
    hide Key, First, Normalize;
    var longer := rules + [rule];
    if j < |rules| {
      FirstGrows(rules, rule, Key(rules[j]));
      assert longer[|rules|] == rule;
      assert forall k :: j < k < |rules| ==> longer[k] == rules[k];
    } else {
      FirstGrows(rules, rule, Key(rule));
    }
  }

  // ---------- Grouping ----------

  lemma {:induction false} FirstOfPrefix(rules: seq<Rule>, i: nat, key: string)
    requires i <= |rules|
    ensures First(rules[..i], key) < i ==> First(rules, key) == First(rules[..i], key)
    ensures First(rules[..i], key) == i ==> First(rules, key) >= i
  {
    var f := First(rules[..i], key);
    assert forall j :: 0 <= j < i ==> rules[..i][j] == rules[j];
    if f < i { assert Key(rules[f]) == key; }
  }

  // The survivors' map after the first `i` rules.
  ghost predicate Keyed(rules: seq<Rule>, i: nat, survivors: map<string, nat>)
    requires i <= |rules|
  {
    && (forall key :: key in survivors <==> First(rules[..i], key) < i)
    && (forall key :: key in survivors ==> survivors[key] == First(rules[..i], key))
  }

  // The loaded rules after the first `i` have been grouped.
  ghost predicate Loaded(rules: seq<Rule>, i: nat, loaded: seq<Rule>)
    requires i <= |rules|
  {
    && |loaded| == |rules|
    && (forall j :: 0 <= j < i && Survives(rules, j) ==>
          First(rules[..i], Key(rules[j])) == j && loaded[j] == MergedRule(rules[..i], Key(rules[j])))
    && (forall j :: 0 <= j < |rules| && (j < i ==> !Survives(rules, j)) ==> loaded[j] == rules[j])
  }

  ghost predicate Changed(rules: seq<Rule>, i: nat, changed: seq<nat>)
    requires i <= |rules|
  {
    && (forall a, b :: 0 <= a < b < |changed| ==> changed[a] != changed[b])
    && (forall j :: j in changed <==> 0 <= j < i && Touched(rules[..i], j))
  }

  ghost predicate Replaced(rules: seq<Rule>, i: nat, duplicates: seq<nat>, replacements: seq<(nat, nat)>)
    requires i <= |rules|
  {
    && duplicates == Duplicates(rules, i)
    && |replacements| == |duplicates|
    && forall k :: 0 <= k < |duplicates| ==>
         duplicates[k] < |rules| && replacements[k] == (duplicates[k], First(rules, Key(rules[duplicates[k]])))
  }

  lemma {:induction false} NothingGrouped(rules: seq<Rule>)
    ensures Keyed(rules, 0, map[]) && Loaded(rules, 0, rules) && Changed(rules, 0, []) && Replaced(rules, 0, [], [])
  {
  }

  lemma {:induction false} KeyedNext(rules: seq<Rule>, i: nat, survivors: map<string, nat>)
    requires i < |rules| && Keyed(rules, i, survivors)
    ensures var key := Key(rules[i]);
            if key in survivors then survivors[key] == First(rules[..i], key) < i && Keyed(rules, i + 1, survivors)
            else First(rules[..i], key) == i && Keyed(rules, i + 1, survivors[key := i])
  {
    hide Key, First;
    assert rules[..i + 1] == rules[..i] + [rules[i]];
    forall key ensures First(rules[..i + 1], key)
                    == if First(rules[..i], key) == i && Key(rules[i]) != key then i + 1 else First(rules[..i], key) {
      FirstGrows(rules[..i], rules[i], key);
    }
  }

  lemma {:induction false} LoadedNew(rules: seq<Rule>, i: nat, loaded: seq<Rule>)
    requires i < |rules| && Loaded(rules, i, loaded) && First(rules[..i], Key(rules[i])) == i
    ensures Loaded(rules, i + 1, loaded[i := rules[i].(subCategory := Normalize(rules[i].subCategory))])
  {
    hide Key, First, MergedRule, Normalize;
    var before, rule := rules[..i], rules[i];
    assert rules[..i + 1] == before + [rule];
    MergedRuleStarts(before, rule);
    forall j | 0 <= j < i && Survives(rules, j)
      ensures First(before + [rule], Key(rules[j])) == j
      ensures loaded[j] == MergedRule(before + [rule], Key(rules[j]))
    {
      MergedRuleGrows(before, rule, Key(rules[j]));
    }
  }

  lemma {:induction false} LoadedOld(rules: seq<Rule>, i: nat, loaded: seq<Rule>)
    requires i < |rules| && Loaded(rules, i, loaded) && First(rules[..i], Key(rules[i])) < i
    ensures var s := First(rules[..i], Key(rules[i]));
            Loaded(rules, i + 1, loaded[s := loaded[s].(isActive := loaded[s].isActive || rules[i].isActive,
                                                        priority := Min(loaded[s].priority, rules[i].priority))])
  {
    hide Key, First, MergedRule, Min;
    var before, rule := rules[..i], rules[i];
    var s := First(before, Key(rule));
    assert rules[..i + 1] == before + [rule];
    FirstOfPrefix(rules, i, Key(rule));
    FirstIsFirst(before, Key(rule));
    forall j | 0 <= j < i && Survives(rules, j)
      ensures First(before + [rule], Key(rules[j])) == j
      ensures Key(rules[j]) != Key(rule) ==> j != s && loaded[j] == MergedRule(before + [rule], Key(rules[j]))
    {
      MergedRuleGrows(before, rule, Key(rules[j]));
    }
    MergedRuleGrows(before, rule, Key(rule));
  }

  lemma {:induction false} FirstIsFirst(rules: seq<Rule>, key: string)
    requires First(rules, key) < |rules|
    ensures Key(rules[First(rules, key)]) == key
  {
  }

  lemma {:induction false} FirstMissing(rules: seq<Rule>, key: string)
    requires First(rules, key) == |rules|
    ensures forall j :: 0 <= j < |rules| ==> Key(rules[j]) != key
  {
  }

  lemma {:induction false} ChangedNew(rules: seq<Rule>, i: nat, changed: seq<nat>)
    requires i < |rules| && Changed(rules, i, changed) && First(rules[..i], Key(rules[i])) == i
    ensures Changed(rules, i + 1,
                    if rules[i].subCategory != Normalize(rules[i].subCategory) then changed + [i] else changed)
  {
    hide Key, First, Normalize, Touched;
    var before, rule := rules[..i], rules[i];
    var next := if rule.subCategory != Normalize(rule.subCategory) then changed + [i] else changed;
    assert rules[..i + 1] == before + [rule];
    FirstMissing(before, Key(rule));
    assert forall j :: 0 <= j < i ==> before[j] == rules[j];
    assert i !in changed;
    forall j ensures j in next <==> 0 <= j < i + 1 && Touched(before + [rule], j) {
      if 0 <= j <= i { TouchedGrows(before, rule, j); }
    }
  }

  lemma {:induction false} ChangedOld(rules: seq<Rule>, i: nat, changed: seq<nat>)
    requires i < |rules| && Changed(rules, i, changed) && First(rules[..i], Key(rules[i])) < i
    ensures var s := First(rules[..i], Key(rules[i]));
            Changed(rules, i + 1, if s in changed then changed else changed + [s])
  {
    hide Key, First, Normalize;
    var before, rule := rules[..i], rules[i];
    var s := First(before, Key(rule));
    assert rules[..i + 1] == before + [rule];
    FirstIsFirst(before, Key(rule));
    forall j | 0 <= j <= i
      ensures Touched(before + [rule], j) <==> j < i && (Touched(before, j) || j == s) {
      TouchedGrows(before, rule, j);
    }
  }

  lemma {:induction false} ReplacedNext(rules: seq<Rule>, i: nat, duplicates: seq<nat>, replacements: seq<(nat, nat)>)
    requires i < |rules| && Replaced(rules, i, duplicates, replacements)
    ensures var s := First(rules[..i], Key(rules[i]));
            if s == i then Replaced(rules, i + 1, duplicates, replacements)
            else Replaced(rules, i + 1, duplicates + [i], replacements + [(i, s)])
  {
    hide Key, First;
    FirstOfPrefix(rules, i, Key(rules[i]));
    FirstBounds(rules, i);
  }

  lemma {:induction false} FirstBounds(rules: seq<Rule>, i: nat)
    requires i < |rules|
    ensures First(rules, Key(rules[i])) <= i && First(rules[..i], Key(rules[i])) <= i
  {
  }

  // ---------- The table ----------

  class RuleTable {
    var rules: seq<Rule>                                // the system rules, oldest first
    var links: map<TransactionId, Option<RuleId>>       // the rule each transaction was classified by

    // Groups the rules.  A loaded rule is named by its position.
    method GroupRules()
      returns (loaded: seq<Rule>, changed: seq<nat>, duplicates: seq<nat>, replacements: seq<(nat, nat)>)
      ensures Loaded(rules, |rules|, loaded)
      ensures Changed(rules, |rules|, changed)
      ensures Replaced(rules, |rules|, duplicates, replacements)
    {
      hide Loaded, Changed, Replaced, Keyed, Key, Normalize, Min, First;
      loaded, changed, duplicates, replacements := rules, [], [], [];
      var survivors: map<string, nat> := map[];
      NothingGrouped(rules);
      for i := 0 to |rules|
        invariant |loaded| == |rules| && forall j :: i <= j < |rules| ==> loaded[j] == rules[j]
        invariant Keyed(rules, i, survivors)
        invariant Loaded(rules, i, loaded)
        invariant Changed(rules, i, changed)
        invariant Replaced(rules, i, duplicates, replacements)
      {
        var rule := loaded[i];
        var canonical := Normalize(rule.subCategory);
        var key := Key(rule);
        KeyedNext(rules, i, survivors);
        ReplacedNext(rules, i, duplicates, replacements);
        if key !in survivors {
          LoadedNew(rules, i, loaded);
          ChangedNew(rules, i, changed);
          survivors := survivors[key := i];
          if rule.subCategory != canonical {
            loaded := loaded[i := rule.(subCategory := canonical)];
            changed := changed + [i];
          } else {
            assert loaded[i := rule.(subCategory := canonical)] == loaded;
          }
        } else {
          LoadedOld(rules, i, loaded);
          ChangedOld(rules, i, changed);
          var s := survivors[key];
          var survivor := loaded[s];
          loaded := loaded[s := survivor.(isActive := survivor.isActive || rule.isActive,
                                          priority := Min(survivor.priority, rule.priority))];
          if s !in changed { changed := changed + [s]; }
          duplicates := duplicates + [i];
          replacements := replacements + [(i, s)];
        }
      }
    }

    // The writes of the rule repository, on rules named by their positions.
    method Save(loaded: seq<Rule>, changed: seq<nat>)
      requires |loaded| == |rules|
      modifies this`rules
      ensures |rules| == |old(rules)|
      ensures forall j :: 0 <= j < |rules| ==> rules[j] == if j in changed then loaded[j] else old(rules)[j]
    {
      rules := seq(|rules|, j requires 0 <= j < |loaded| && |loaded| == |rules| reads this =>
                              if j in changed then loaded[j] else rules[j]);
    }

    method Remove(duplicates: seq<nat>)
      modifies this`rules
      ensures rules == Without(old(rules), duplicates, |old(rules)|)
    {
      var kept: seq<Rule> := [];
      for j := 0 to |rules|
        invariant kept == Without(rules, duplicates, j)
      {
        if j !in duplicates { kept := kept + [rules[j]]; }
      }
      rules := kept;
    }

    // Points every transaction of a duplicate to the duplicate's survivor.
    method Relink(loaded: seq<Rule>, replacements: seq<(nat, nat)>)
      requires forall k :: 0 <= k < |replacements| ==> replacements[k].0 < |loaded| && replacements[k].1 < |loaded|
      modifies this`links
      ensures links.Keys == old(links.Keys)
      ensures forall t :: t in links ==> links[t] == Relinked(loaded, replacements, |replacements|, old(links)[t])
    {
      for k := 0 to |replacements|
        invariant links.Keys == old(links.Keys)
        invariant forall t :: t in links ==> links[t] == Relinked(loaded, replacements, k, old(links)[t])
      {
        var (duplicate, survivor) := replacements[k];
        links := map t | t in links ::
          if links[t] == Some(loaded[duplicate].id) then Some(loaded[survivor].id) else links[t];
      }
    }

    // `reconcileLegacyRuleGroups`: how many rules are written back and how many are removed.
    method ReconcileLegacyRuleGroups() returns (changedCount: nat, removedCount: nat)
      requires UniqueIds(rules)
      modifies this
      ensures rules == Merged(old(rules))
      ensures links.Keys == old(links.Keys)
      ensures forall t :: t in links ==> links[t] == Target(old(rules), old(links)[t])
      ensures changedCount == |TouchedRules(old(rules))|
      ensures removedCount == |old(rules)| - |rules|
    {
      hide Loaded, Changed, Replaced, Merged, Target, Relinked, Without, TouchedRules, Duplicates, UniqueIds;
      ghost var was := rules;
      var loaded, changed, duplicates, replacements := GroupRules();
      ReplacementsInRange(was, duplicates, replacements);
      LoadedSize(was, loaded);
      if changed != [] { Save(loaded, changed); }
      SavedIsLoaded(was, loaded, changed, rules);
      if duplicates != [] {
        Relink(loaded, replacements);
        Remove(duplicates);
      } else {
        NothingRemoved(rules, |rules|);
      }
      forall t | t in links ensures links[t] == Target(was, old(links)[t]) {
        NothingRelinked(loaded, replacements, old(links)[t]);
        RelinkedIsTarget(was, loaded, duplicates, replacements, old(links)[t]);
      }
      RemovedIsMerged(was, loaded, duplicates, replacements);
      SizeOfChanged(was, changed);
      changedCount := |changed|;
      removedCount := |duplicates|;
    }
  }

  function Without(rules: seq<Rule>, gone: seq<nat>, n: nat): seq<Rule>
    requires n <= |rules|
  {
    if n == 0 then [] else Without(rules, gone, n - 1) + if n - 1 in gone then [] else [rules[n - 1]]
  }

  function Relinked(rules: seq<Rule>, replacements: seq<(nat, nat)>, n: nat, target: Option<RuleId>): Option<RuleId>
    requires n <= |replacements|
    requires forall k :: 0 <= k < |replacements| ==> replacements[k].0 < |rules| && replacements[k].1 < |rules|
  {
    if n == 0 then target
    else
      var before := Relinked(rules, replacements, n - 1, target);
      if before == Some(rules[replacements[n - 1].0].id) then Some(rules[replacements[n - 1].1].id) else before
  }

  lemma {:induction false} ReplacementsInRange(rules: seq<Rule>, duplicates: seq<nat>, replacements: seq<(nat, nat)>)
    requires Replaced(rules, |rules|, duplicates, replacements)
    ensures |replacements| == |duplicates|
    ensures forall k :: 0 <= k < |replacements| ==> replacements[k].0 < |rules| && replacements[k].1 < |rules|
  {
    hide Key;
    forall k | 0 <= k < |replacements| ensures replacements[k].1 < |rules| { FirstBounds(rules, duplicates[k]); }
  }

  lemma {:induction false} LoadedSize(rules: seq<Rule>, loaded: seq<Rule>)
    requires Loaded(rules, |rules|, loaded)
    ensures |loaded| == |rules|
  {
  }

  // A survivor that was not touched is already merged.
  lemma {:induction false} UntouchedIsMerged(rules: seq<Rule>, j: nat)
    requires j < |rules| && Survives(rules, j) && !Touched(rules, j)
    ensures MergedRule(rules, Key(rules[j])) == rules[j]
  {
    hide Key, Normalize, First, LeastPriority;
    var key := Key(rules[j]);
    FirstIsFirst(rules, key);
    OnlyOne(rules, key, j);
    if rules[j].isActive { assert rules[j] in rules; }
  }

  lemma {:induction false} OnlyOne(rules: seq<Rule>, key: string, j: nat)
    requires j < |rules| && First(rules, key) == j
    requires forall k :: j < k < |rules| ==> Key(rules[k]) != key
    ensures LeastPriority(rules, key) == rules[j].priority
    ensures forall r :: r in rules && Key(r) == key ==> r == rules[j]
  {
    hide Key;
    var n := |rules| - 1;
    FirstOfPrefix(rules, n, key);
    if j < n { OnlyOne(rules[..n], key, j); }
  }

  lemma {:induction false} SavedIsLoaded(was: seq<Rule>, loaded: seq<Rule>, changed: seq<nat>, saved: seq<Rule>)
    requires Loaded(was, |was|, loaded) && Changed(was, |was|, changed) && |saved| == |was|
    requires forall j :: 0 <= j < |saved| ==> saved[j] == if j in changed then loaded[j] else was[j]
    ensures saved == loaded
  {
    hide Key, First, MergedRule, Touched;
    assert was[..|was|] == was;
    forall j | 0 <= j < |was| && j !in changed ensures loaded[j] == was[j] {
      if Survives(was, j) { UntouchedIsMerged(was, j); }
    }
  }

  lemma {:induction false} NothingRemoved(rules: seq<Rule>, n: nat)
    requires n <= |rules|
    ensures Without(rules, [], n) == rules[..n]
  {
    if n > 0 { NothingRemoved(rules, n - 1); }
  }

  lemma {:induction false} NothingRelinked(rules: seq<Rule>, replacements: seq<(nat, nat)>, target: Option<RuleId>)
    requires forall k :: 0 <= k < |replacements| ==> replacements[k].0 < |rules| && replacements[k].1 < |rules|
    ensures replacements == [] ==> Relinked(rules, replacements, |replacements|, target) == target
  {
  }

  lemma {:induction false} RemovedIsMerged(was: seq<Rule>, loaded: seq<Rule>, duplicates: seq<nat>,
                                           replacements: seq<(nat, nat)>)
    requires Loaded(was, |was|, loaded) && Replaced(was, |was|, duplicates, replacements)
    ensures Without(loaded, duplicates, |loaded|) == Merged(was)
    ensures |duplicates| == |was| - |Merged(was)|
  {
    hide Key, First, MergedRule, Survives;
    assert was[..|was|] == was;
    KeptAreSurvivors(was, loaded, |was|);
    var s := Survivors(was, |was|);
    forall a | 0 <= a < |s| ensures loaded[s[a]] == MergedRule(was, Key(was[s[a]])) {
      SurvivorsAre(was, |was|, s[a]);
    }
  }

  lemma {:induction false} KeptAreSurvivors(was: seq<Rule>, loaded: seq<Rule>, n: nat)
    requires n <= |was| == |loaded|
    ensures var s := Survivors(was, n);
            Without(loaded, Duplicates(was, |was|), n) == seq(|s|, a requires 0 <= a < |s| => loaded[s[a]])
    ensures |Duplicates(was, n)| == n - |Survivors(was, n)|
  {
    hide Survives;
    if n > 0 {
      KeptAreSurvivors(was, loaded, n - 1);
      SurvivorsAre(was, |was|, n - 1);
    }
  }

  lemma {:induction false} SizeOfChanged(rules: seq<Rule>, changed: seq<nat>)
    requires Changed(rules, |rules|, changed)
    ensures |changed| == |TouchedRules(rules)|
  {
    hide Touched;
    assert rules[..|rules|] == rules;
    SizeOfDistinct(changed);
    assert TouchedRules(rules) == ToSet(changed);
  }

  lemma {:induction false} LoadedIds(was: seq<Rule>, loaded: seq<Rule>)
    requires Loaded(was, |was|, loaded)
    ensures |loaded| == |was| && forall j :: 0 <= j < |was| ==> loaded[j].id == was[j].id
  {
  }

  // The rule a removed one is replaced by.
  ghost predicate Replaces(rules: seq<Rule>, replacement: (nat, nat)) {
    && replacement.0 < |rules| && replacement.1 < |rules|
    && !Survives(rules, replacement.0) && Survives(rules, replacement.1)
    && replacement.1 == First(rules, Key(rules[replacement.0]))
  }

  lemma {:induction false} ReplacementsReplace(rules: seq<Rule>, duplicates: seq<nat>, replacements: seq<(nat, nat)>)
    requires Replaced(rules, |rules|, duplicates, replacements)
    ensures forall k :: 0 <= k < |replacements| ==> Replaces(rules, replacements[k])
    ensures forall j: nat :: j < |rules| && !Survives(rules, j) ==>
              exists k :: 0 <= k < |replacements| && replacements[k].0 == j
  {
    hide Key, First;
    forall k | 0 <= k < |replacements| ensures Replaces(rules, replacements[k]) {
      SurvivorsAre(rules, |rules|, duplicates[k]);
      FirstBounds(rules, duplicates[k]);
      FirstIsFirst(rules, Key(rules[duplicates[k]]));
    }
    forall j: nat | j < |rules| && !Survives(rules, j)
      ensures exists k :: 0 <= k < |replacements| && replacements[k].0 == j
    {
      SurvivorsAre(rules, |rules|, j);
      var k :| 0 <= k < |duplicates| && duplicates[k] == j;
      assert replacements[k].0 == j;
    }
  }

  lemma {:induction false} RelinkedOwn(was: seq<Rule>, loaded: seq<Rule>, replacements: seq<(nat, nat)>, n: nat, j: nat)
    requires UniqueIds(was) && n <= |replacements| && j < |was|
    requires |loaded| == |was| && forall i :: 0 <= i < |was| ==> loaded[i].id == was[i].id
    requires forall k :: 0 <= k < |replacements| ==> Replaces(was, replacements[k])
    requires forall k :: 0 <= k < |replacements| ==> replacements[k].0 < |loaded| && replacements[k].1 < |loaded|
    ensures Relinked(loaded, replacements, n, Some(was[j].id))
         == if exists k :: 0 <= k < n && replacements[k].0 == j then Some(was[First(was, Key(was[j]))].id)
            else Some(was[j].id)
  {
    hide Key, First, Survives;
    FirstBounds(was, j);
    if n > 0 {
      RelinkedOwn(was, loaded, replacements, n - 1, j);
      assert Replaces(was, replacements[n - 1]);
      SameRule(was, replacements[n - 1].0, j);
      SameRule(was, replacements[n - 1].0, First(was, Key(was[j])));
      if exists k :: 0 <= k < n - 1 && replacements[k].0 == j {
        var k :| 0 <= k < n - 1 && replacements[k].0 == j;
        assert Replaces(was, replacements[k]);
      }
    }
  }

  lemma {:induction false} SameRule(rules: seq<Rule>, i: nat, j: nat)
    requires UniqueIds(rules) && i < |rules| && j < |rules|
    ensures rules[i].id == rules[j].id <==> i == j
  {
  }

  lemma {:induction false} RelinkedOther(loaded: seq<Rule>, replacements: seq<(nat, nat)>, n: nat,
                                         target: Option<RuleId>)
    requires n <= |replacements|
    requires forall k :: 0 <= k < |replacements| ==> replacements[k].0 < |loaded| && replacements[k].1 < |loaded|
    requires forall j :: 0 <= j < |loaded| ==> target != Some(loaded[j].id)
    ensures Relinked(loaded, replacements, n, target) == target
  {
    if n > 0 { RelinkedOther(loaded, replacements, n - 1, target); }
  }

  lemma {:induction false} TargetIs(rules: seq<Rule>, j: nat)
    requires UniqueIds(rules) && j < |rules|
    ensures First(rules, Key(rules[j])) < |rules|
    ensures Target(rules, Some(rules[j].id)) == Some(rules[First(rules, Key(rules[j]))].id)
  {
    hide Key, First;
    FirstBounds(rules, j);
    var i: nat :| i < |rules| && Some(rules[j].id) == Some(rules[i].id)
                  && Target(rules, Some(rules[j].id)) == Some(rules[First(rules, Key(rules[i]))].id);
    SameRule(rules, i, j);
  }

  lemma {:induction false} RelinkedIsTarget(was: seq<Rule>, loaded: seq<Rule>, duplicates: seq<nat>,
                                            replacements: seq<(nat, nat)>, target: Option<RuleId>)
    requires UniqueIds(was) && Loaded(was, |was|, loaded) && Replaced(was, |was|, duplicates, replacements)
    requires forall k :: 0 <= k < |replacements| ==> replacements[k].0 < |loaded| && replacements[k].1 < |loaded|
    ensures Relinked(loaded, replacements, |replacements|, target) == Target(was, target)
  {
    hide Key, First, Loaded, Replaced, Replaces, Relinked, UniqueIds;
    LoadedIds(was, loaded);
    ReplacementsReplace(was, duplicates, replacements);
    if j: nat :| j < |was| && target == Some(was[j].id) {
      RelinkedOwn(was, loaded, replacements, |replacements|, j);
      TargetIs(was, j);
      if Survives(was, j) {
        assert Target(was, target) == Some(was[j].id);
      } else {
        var k :| 0 <= k < |replacements| && replacements[k].0 == j;
        assert Target(was, target) == Some(was[First(was, Key(was[j]))].id);
      }
    } else {
      RelinkedOther(loaded, replacements, |replacements|, target);
    }
  }
}
