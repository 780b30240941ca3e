/** The fingerprint matching takes the oldest rows, takes as many as any matching could, and ignores page order. */
module Matching {
  import opened Integers
  import opened Options
  import opened MonoTypes
  import opened Reconciliation

  // The rows matched by fingerprint f among the first n downloads, in download order.
  function MatchedRows(rows: seq<Row>, txs: seq<Download>, n: nat, f: Fingerprint): seq<Row>
    requires n <= |txs|
  {
    if n == 0 then []
    else MatchedRows(rows, txs, n - 1, f)
         + if NeedsMatch(rows, txs[n - 1], f) && Target(rows, txs, n - 1).Some?
           then [Target(rows, txs, n - 1).value] else []
  }

  lemma {:induction false} TargetAtRank(rows: seq<Row>, txs: seq<Download>, i: nat, f: Fingerprint)
    requires i < |txs|
    ensures NeedsMatch(rows, txs[i], f) ==>
              var candidates, k := Candidates(rows, txs, f), Rank(rows, txs, i, f);
              Target(rows, txs, i) == if k < |candidates| then Some(candidates[k]) else None
  {
  }

  // Per fingerprint, the matched rows are the oldest unreserved rows, and their number is the smaller of
  // the number of unknown IDs and the number of unreserved rows.
  lemma {:induction false} MatchingTakesOldest(rows: seq<Row>, txs: seq<Download>, n: nat, f: Fingerprint)
    requires n <= |txs|
    ensures var candidates := Candidates(rows, txs, f);
            MatchedRows(rows, txs, n, f) == candidates[..Min(Rank(rows, txs, n, f), |candidates|)]
  {
    hide NeedsMatch, Target, Candidates;
    if n > 0 {
      TargetAtRank(rows, txs, n - 1, f);
      MatchingTakesOldest(rows, txs, n - 1, f);
    }
  }

  lemma {:induction false} WithFingerprintSorted(rows: seq<Row>, f: Fingerprint)
    requires SortedByAge(rows) && DistinctRowIds(rows)
    ensures SortedByAge(WithFingerprint(rows, f))
  {
    if rows != [] {
      var init := rows[..|rows| - 1];
      WithFingerprintSorted(init, f);
      WithFingerprintMembers(init, f);
      forall r | r in WithFingerprint(init, f) ensures Older(r, rows[|rows| - 1]) {
        assert r in init;
      }
    }
  }

  lemma {:induction false} UnreservedSorted(rows: seq<Row>, used: set<RowId>)
    requires SortedByAge(rows) && DistinctRowIds(rows)
    ensures SortedByAge(Unreserved(rows, used))
  {
    if rows != [] {
      UnreservedSorted(rows[1..], used);
      UnreservedMembers(rows[1..], used);
      forall r | r in Unreserved(rows[1..], used) ensures Older(rows[0], r) {
        assert r in rows[1..];
      }
    }
  }

  // Candidates come oldest first, so no unmatched candidate is older than a matched one.
  lemma {:induction false} CandidatesSorted(rows: seq<Row>, txs: seq<Download>, f: Fingerprint)
    requires DistinctRowIds(rows)
    ensures SortedByAge(Candidates(rows, txs, f))
  {
    OldestFirstSorts(rows);
    OldestFirstSameRows(rows);
    WithFingerprintSorted(OldestFirst(rows), f);
    WithFingerprintMembers(OldestFirst(rows), f);
    UnreservedSorted(WithFingerprint(OldestFirst(rows), f), Reserved(rows, txs));
  }

  // ---------- Maximality ----------

  // Some other way of giving unknown IDs to unreserved rows with the same fingerprint.
  ghost predicate Assignment(rows: seq<Row>, txs: seq<Download>, a: seq<Option<Row>>) {
    && |a| == |txs|
    && (forall i :: 0 <= i < |a| && a[i].Some? ==>
          && Owner(rows, ProviderId(txs[i])).None?
          && FingerprintOf(txs[i].content).Some?
          && FingerprintOf(txs[i].content) == FingerprintOf(a[i].value.content)
          && a[i].value in rows && a[i].value.id !in Reserved(rows, txs))
    && (forall i, j :: 0 <= i < j < |a| && a[i].Some? && a[j].Some? ==> a[i].value.id != a[j].value.id)
  }

  ghost function AssignedIds(txs: seq<Download>, a: seq<Option<Row>>, n: nat, f: Fingerprint): set<RowId>
    requires n <= |a| == |txs|
  {
    set i | 0 <= i < n && a[i].Some? && FingerprintOf(txs[i].content) == Some(f) :: a[i].value.id
  }

  lemma {:induction false} AssignedStep(rows: seq<Row>, txs: seq<Download>, a: seq<Option<Row>>, n: nat, f: Fingerprint)
    requires Assignment(rows, txs, a) && 0 < n <= |a|
    ensures |AssignedIds(txs, a, n, f)|
         <= |AssignedIds(txs, a, n - 1, f)| + if NeedsMatch(rows, txs[n - 1], f) then 1 else 0
  {
    hide FingerprintOf, Owner, Reserved;
    var before, after := AssignedIds(txs, a, n - 1, f), AssignedIds(txs, a, n, f);
    if a[n - 1].Some? && FingerprintOf(txs[n - 1].content) == Some(f) {
      assert after == before + {a[n - 1].value.id};
    } else {
      assert after == before;
    }
  }

  lemma {:induction false} AssignedAtMostRank(rows: seq<Row>, txs: seq<Download>, a: seq<Option<Row>>, n: nat,
                                              f: Fingerprint)
    requires |a| == |txs| && Assignment(rows, txs, a) && n <= |a|
    ensures |AssignedIds(txs, a, n, f)| <= Rank(rows, txs, n, f)
  {
    hide Assignment, NeedsMatch;
    if n > 0 {
      AssignedAtMostRank(rows, txs, a, n - 1, f);
      AssignedStep(rows, txs, a, n, f);
    } else {
      assert AssignedIds(txs, a, n, f) == {};
    }
  }

  lemma {:induction false} IdsAtMostLength(rows: seq<Row>, ids: set<RowId>)
    requires forall id :: id in ids ==> exists r :: r in rows && r.id == id
    ensures |ids| <= |rows|
  {
    if rows == [] {
      assert ids == {};
    } else {
      assert rows == [rows[0]] + rows[1..];
      IdsAtMostLength(rows[1..], ids - {rows[0].id});
      assert ids <= (ids - {rows[0].id}) + {rows[0].id};
    }
  }

  // No assignment gives rows to more downloads with fingerprint f than the greedy matching does.  The rows of
  // an assignment are distinct, so the number of assigned rows is the number of assigned downloads.
  lemma {:induction false} MatchingIsMaximum(rows: seq<Row>, txs: seq<Download>, a: seq<Option<Row>>, f: Fingerprint)
    requires DistinctRowIds(rows) && Assignment(rows, txs, a)
    ensures |AssignedIds(txs, a, |a|, f)| <= |MatchedRows(rows, txs, |txs|, f)|
  {
    MatchingTakesOldest(rows, txs, |txs|, f);
    AssignedAtMostRank(rows, txs, a, |a|, f);
    var ids := AssignedIds(txs, a, |a|, f);
    CandidatesMembers(rows, txs, f);
    forall id | id in ids ensures exists r :: r in Candidates(rows, txs, f) && r.id == id {
      var i :| 0 <= i < |a| && a[i].Some? && FingerprintOf(txs[i].content) == Some(f) && a[i].value.id == id;
      assert a[i].value in Candidates(rows, txs, f);
    }
    IdsAtMostLength(Candidates(rows, txs, f), ids);
  }

  // ---------- Page order ----------

  ghost predicate SameDownloads(a: seq<Download>, b: seq<Download>) {
    forall tx :: tx in a <==> tx in b
  }

  ghost function Unmatched(rows: seq<Row>, txs: seq<Download>, n: nat, f: Fingerprint): set<Download>
    requires n <= |txs|
  {
    set tx | tx in txs[..n] && NeedsMatch(rows, tx, f)
  }

  lemma {:induction false} UnmatchedStart(rows: seq<Row>, txs: seq<Download>, f: Fingerprint)
    ensures Unmatched(rows, txs, 0, f) == {}
  {
  }

  lemma {:induction false} UnmatchedStep(rows: seq<Row>, txs: seq<Download>, n: nat, f: Fingerprint)
    requires DistinctIds(txs) && 0 < n <= |txs|
    ensures Unmatched(rows, txs, n, f)
         == Unmatched(rows, txs, n - 1, f) + if NeedsMatch(rows, txs[n - 1], f) then {txs[n - 1]} else {}
    ensures txs[n - 1] !in Unmatched(rows, txs, n - 1, f)
  {
  }

  lemma {:induction false} RankCounts(rows: seq<Row>, txs: seq<Download>, n: nat, f: Fingerprint)
    requires DistinctIds(txs) && n <= |txs|
    ensures Rank(rows, txs, n, f) == |Unmatched(rows, txs, n, f)|
  {
    hide Unmatched, DistinctIds, NeedsMatch;
    if n == 0 {
      UnmatchedStart(rows, txs, f);
    } else {
      RankCounts(rows, txs, n - 1, f);
      UnmatchedStep(rows, txs, n, f);
    }
  }

  lemma {:induction false} RankIgnoresOrder(rows: seq<Row>, a: seq<Download>, b: seq<Download>, f: Fingerprint)
    requires DistinctIds(a) && DistinctIds(b) && SameDownloads(a, b)
    ensures Rank(rows, a, |a|, f) == Rank(rows, b, |b|, f)
  {
    RankCounts(rows, a, |a|, f);
    RankCounts(rows, b, |b|, f);
    assert a[..|a|] == a && b[..|b|] == b;
    assert Unmatched(rows, a, |a|, f) == Unmatched(rows, b, |b|, f);
  }

  lemma {:induction false} ReservedIgnoresOrder(rows: seq<Row>, a: seq<Download>, b: seq<Download>)
    requires SameDownloads(a, b)
    ensures Reserved(rows, a) <= Reserved(rows, b)
  {
    forall id | id in Reserved(rows, a) ensures id in Reserved(rows, b) {
      var i :| 0 <= i < |a| && Owner(rows, ProviderId(a[i])).Some? && Owner(rows, ProviderId(a[i])).value.id == id;
      assert a[i] in b;
      var j :| 0 <= j < |b| && b[j] == a[i];
      assert Owner(rows, ProviderId(b[j])).Some?;
    }
  }

  lemma {:induction false} MatchedIgnoresOrder(rows: seq<Row>, a: seq<Download>, b: seq<Download>, f: Fingerprint)
    requires DistinctRowIds(rows) && DistinctIds(a) && DistinctIds(b) && SameDownloads(a, b)
    ensures MatchedRows(rows, a, |a|, f) == MatchedRows(rows, b, |b|, f)
  {
    MatchingTakesOldest(rows, a, |a|, f);
    MatchingTakesOldest(rows, b, |b|, f);
    RankIgnoresOrder(rows, a, b, f);
    ReservedIgnoresOrder(rows, a, b);
    ReservedIgnoresOrder(rows, b, a);
    assert Reserved(rows, a) == Reserved(rows, b);
    assert Candidates(rows, a, f) == Candidates(rows, b, f);
  }

  // A transaction that comes twice is the same both times.
  ghost predicate ConsistentRepeats(incoming: seq<Download>) {
    forall a, b :: a in incoming && b in incoming && ProviderId(a) == ProviderId(b) ==> a == b
  }

  // Pages whose repeated IDs carry the same transaction reconcile to the same set of transactions.
  lemma {:induction false} UniqueIgnoresOrder(incoming: seq<Download>)
    requires ConsistentRepeats(incoming)
    ensures SameDownloads(Unique(incoming), incoming)
  {
    UniqueIds(incoming);
    var u := Unique(incoming);
    forall tx | tx in u ensures tx in incoming {
      var k :| 0 <= k < |u| && u[k] == tx;
      var i := JsMap.LastValueWitness(Keyed(incoming), ProviderId(tx));
    }
    forall tx | tx in incoming ensures tx in u {
      var k :| 0 <= k < |u| && ProviderId(u[k]) == ProviderId(tx);
      assert u[k] in u;
    }
  }

  // Whatever order the pages come in and wherever they overlap, the same rows receive a new alias.
  lemma {:induction false} PageOrderIsIrrelevant(rows: seq<Row>, a: seq<Download>, b: seq<Download>, f: Fingerprint)
    requires DistinctRowIds(rows) && SameDownloads(a, b) && ConsistentRepeats(a)
    ensures MatchedRows(rows, Unique(a), |Unique(a)|, f) == MatchedRows(rows, Unique(b), |Unique(b)|, f)
  {
    hide Unique, MatchedRows, DistinctIds, DistinctRowIds;
    UniqueIds(a);
    UniqueIds(b);
    UniqueIgnoresOrder(a);
    UniqueIgnoresOrder(b);
    MatchedIgnoresOrder(rows, Unique(a), Unique(b), f);
  }
}
