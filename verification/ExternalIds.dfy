/** External IDs of the transactions of an uploaded statement (`buildPdfTransactionExternalIds`). */
module ExternalIds {
  import opened Decimal
  import opened Substrings

  // The fields as they print; an empty reference counts as missing.
  datatype ParsedRow = ParsedRow(reference: string, date: string, amount: string, direction: string,
                                 description: string)

  const SUFFIX := ":duplicate-"

  function BaseId(row: ParsedRow, businessId: string): string {
    if row.reference != "" then row.reference
    else "pdf:" + businessId + ":" + row.date + ":" + row.amount + ":" + row.direction + ":" + row.description
  }

  function BaseIds(rows: seq<ParsedRow>, businessId: string): (bases: seq<string>)
    ensures |bases| == |rows|
  {
    seq(|rows|, i requires 0 <= i < |rows| => BaseId(rows[i], businessId))
  }

  // How often `id` occurs among the first n base IDs.
  function Count(bases: seq<string>, n: nat, id: string): nat
    requires n <= |bases|
  {
    if n == 0 then 0 else Count(bases, n - 1, id) + if bases[n - 1] == id then 1 else 0
  }

  function IdAt(bases: seq<string>, i: nat): string
    requires i < |bases|
  {
    var occurrence := Count(bases, i, bases[i]);
    if occurrence == 0 then bases[i] else bases[i] + SUFFIX + Print(occurrence + 1)
  }

  method BuildExternalIds(rows: seq<ParsedRow>, businessId: string) returns (ids: seq<string>)
    ensures |ids| == |rows|
    ensures forall i :: 0 <= i < |rows| ==> ids[i] == IdAt(BaseIds(rows, businessId), i)
  {
    var seen: map<string, nat> := map[];
    ghost var bases := BaseIds(rows, businessId);
    ids := [];
    for i := 0 to |rows|
      invariant |ids| == i && forall k :: 0 <= k < i ==> ids[k] == IdAt(bases, k)
      invariant forall id :: (if id in seen then seen[id] else 0) == Count(bases, i, id)
    {
      var base := BaseId(rows[i], businessId);
      var occurrence := if base in seen then seen[base] else 0;
      seen := seen[base := occurrence + 1];
      ids := ids + [if occurrence == 0 then base else base + SUFFIX + Print(occurrence + 1)];
    }
  }

  // ---------- Base IDs ----------

  lemma {:induction false} BaseIdShape(row: ParsedRow, businessId: string)
    requires row.reference == ""
    ensures BaseId(row, businessId)
         == ("pdf:" + businessId + ":")
            + (row.date + ":" + (row.amount + ":" + (row.direction + ":" + row.description)))
  {
    assert row.date + ":" + (row.amount + ":" + (row.direction + ":" + row.description))
        == row.date + ":" + row.amount + ":" + row.direction + ":" + row.description;
  }

  // A reference is the base ID.  Without one, rows whose dates, amounts and directions hold no colon have the same base
  // ID exactly when all four fields agree.
  lemma {:induction false} SameBaseId(p: ParsedRow, q: ParsedRow, businessId: string)
    ensures p.reference != "" ==> BaseId(p, businessId) == p.reference
    ensures p.reference == "" && q.reference == ""
            && ':' !in p.date + p.amount + p.direction && ':' !in q.date + q.amount + q.direction ==>
              (BaseId(p, businessId) == BaseId(q, businessId) <==> p == q)
  {
    hide BaseId;
    if p.reference == "" && q.reference == "" {
      BaseIdShape(p, businessId);
      BaseIdShape(q, businessId);
      if BaseId(p, businessId) == BaseId(q, businessId)
         && ':' !in p.date + p.amount + p.direction && ':' !in q.date + q.amount + q.direction {
        var head := "pdf:" + businessId + ":";
        var x := p.date + ":" + (p.amount + ":" + (p.direction + ":" + p.description));
        var y := q.date + ":" + (q.amount + ":" + (q.direction + ":" + q.description));
        assert x == (head + x)[|head|..] && y == (head + y)[|head|..];
        SplitAtFirstColon(p.date, p.amount + ":" + (p.direction + ":" + p.description),
                          q.date, q.amount + ":" + (q.direction + ":" + q.description));
        SplitAtFirstColon(p.amount, p.direction + ":" + p.description, q.amount, q.direction + ":" + q.description);
        SplitAtFirstColon(p.direction, p.description, q.direction, q.description);
      }
    }
    WithReference(p, businessId);
  }

  lemma {:induction false} WithReference(row: ParsedRow, businessId: string)
    ensures row.reference != "" ==> BaseId(row, businessId) == row.reference
  {
  }

  // Two equal payments of one day, as they are named.
  lemma SampleIds()
    ensures var row := ParsedRow("", "2025-01-02", "10", "debit", "rent");
            var bases := BaseIds([row, row], "b");
            && IdAt(bases, 0) == "pdf:b:2025-01-02:10:debit:rent"
            && IdAt(bases, 1) == "pdf:b:2025-01-02:10:debit:rent" + ":duplicate-2"
  {
    hide BaseId;
    SampleBase();
    assert Print(2) == "2";
  }

  lemma SampleBase()
    ensures BaseId(ParsedRow("", "2025-01-02", "10", "debit", "rent"), "b") == "pdf:b:2025-01-02:10:debit:rent"
  {
  }

  // ---------- Uniqueness ----------

  ghost predicate AllDistinct(bases: seq<string>) {
    forall i, j :: 0 <= i < j < |bases| ==> IdAt(bases, i) != IdAt(bases, j)
  }

  // Some row already carries the ID that a repeated row is given.
  ghost predicate Clash(bases: seq<string>, i: nat, j: nat) {
    && i < |bases| && j < |bases| && Count(bases, j, bases[j]) > 0
    && bases[i] == bases[j] + SUFFIX + Print(Count(bases, j, bases[j]) + 1)
  }

  lemma {:induction false} CountGrows(bases: seq<string>, i: nat, j: nat)
    requires i < j <= |bases|
    ensures Count(bases, i, bases[i]) < Count(bases, j, bases[i])
  {
    if i + 1 < j { CountGrows(bases, i, j - 1); }
  }

  lemma {:induction false} FirstOccurrence(bases: seq<string>, i: nat) returns (first: nat)
    requires i < |bases|
    ensures first <= i && bases[first] == bases[i] && Count(bases, first, bases[i]) == 0
  {
    first := EarlierOccurrence(bases, i, bases[i]);
  }

  lemma {:induction false} EarlierOccurrence(bases: seq<string>, i: nat, id: string) returns (first: nat)
    requires i < |bases| && bases[i] == id
    ensures first <= i && bases[first] == id && Count(bases, first, id) == 0
  {
    first := i;
    while Count(bases, first, id) > 0
      invariant first <= i && bases[first] == id
      decreases first
    {
      first := Previous(bases, first, id);
    }
  }

  lemma {:induction false} Previous(bases: seq<string>, n: nat, id: string) returns (k: nat)
    requires n <= |bases| && Count(bases, n, id) > 0
    ensures k < n && bases[k] == id
  {
    if bases[n - 1] == id { k := n - 1; } else { k := Previous(bases, n - 1, id); }
  }

  // A suffixed ID determines the base ID and the number.
  lemma {:induction false} SuffixIsUnambiguous(a: string, m: nat, b: string, n: nat)
    requires a + SUFFIX + Print(m) == b + SUFFIX + Print(n)
    ensures a == b && m == n
  {
    TrailingDigitsOf(a + SUFFIX, Print(m));
    TrailingDigitsOf(b + SUFFIX, Print(n));
    var s := a + SUFFIX + Print(m);
    var k := |s| - |Print(m)|;
    assert s[k..] == Print(m) && s[k..] == Print(n);
    assert s[..k] == a + SUFFIX && s[..k] == b + SUFFIX;
    assert a == (a + SUFFIX)[..|a|] && b == (b + SUFFIX)[..|b|];
    PrintInjective(m, n);
  }

  lemma {:induction false} EqualIdsClash(bases: seq<string>, i: nat, j: nat)
    requires i < j < |bases| && IdAt(bases, i) == IdAt(bases, j)
    ensures Clash(bases, i, j) || Clash(bases, j, i)
  {
    hide SUFFIX;
    var m, n := Count(bases, i, bases[i]), Count(bases, j, bases[j]);
    if bases[i] == bases[j] {
      CountGrows(bases, i, j);
    }
    if m > 0 && n > 0 {
      SuffixIsUnambiguous(bases[i], m + 1, bases[j], n + 1);
    }
  }

  lemma {:induction false} ClashCollides(bases: seq<string>, i: nat, j: nat) returns (first: nat)
    requires Clash(bases, i, j)
    ensures first < |bases| && first != j && IdAt(bases, first) == IdAt(bases, j)
  {
    first := FirstOccurrence(bases, i);
  }

  // The exact condition: the IDs are pairwise distinct if and only if no row already carries, as its own base ID,
  // the suffixed ID that a repeated row is given.
  lemma {:induction false} DistinctIffNoClash(bases: seq<string>)
    ensures AllDistinct(bases) <==> forall i, j :: 0 <= i < |bases| && 0 <= j < |bases| ==> !Clash(bases, i, j)
  {
    if AllDistinct(bases) {
      forall i, j | 0 <= i < |bases| && 0 <= j < |bases| ensures !Clash(bases, i, j) {
        if Clash(bases, i, j) {
          var first := ClashCollides(bases, i, j);
        }
      }
    } else {
      var i, j :| 0 <= i < j < |bases| && IdAt(bases, i) == IdAt(bases, j);
      EqualIdsClash(bases, i, j);
    }
  }

  ghost predicate EndsInSuffix(id: string) {
    exists a: string, digits: string :: digits != "" && AllDigits(digits) && id == a + SUFFIX + digits
  }

  // In particular the IDs are distinct when no base ID ends in ":duplicate-" and digits.
  lemma {:induction false} DistinctWithoutSuffixes(bases: seq<string>)
    requires forall i :: 0 <= i < |bases| ==> !EndsInSuffix(bases[i])
    ensures AllDistinct(bases)
  {
    DistinctIffNoClash(bases);
  }

  // A reference that imitates a suffix does collide.
  lemma ClashExample()
    ensures var bases := ["a", "a", "a:duplicate-2"]; IdAt(bases, 1) == IdAt(bases, 2)
  {
  }

  // ---------- Stability ----------

  lemma {:induction false} CountOfPrefix(bases: seq<string>, more: seq<string>, n: nat, id: string)
    requires n <= |bases|
    ensures Count(bases + more, n, id) == Count(bases, n, id)
  {
    if n > 0 { CountOfPrefix(bases, more, n - 1, id); }
  }

  // Appending rows to a statement changes none of the IDs already given.
  lemma {:induction false} IdsAreStable(rows: seq<ParsedRow>, more: seq<ParsedRow>, businessId: string, i: nat)
    requires i < |rows|
    ensures IdAt(BaseIds(rows + more, businessId), i) == IdAt(BaseIds(rows, businessId), i)
  {
    var a, b := BaseIds(rows, businessId), BaseIds(more, businessId);
    assert BaseIds(rows + more, businessId) == a + b;
    CountOfPrefix(a, b, i, a[i]);
  }
}
