/** What one import does to every single row: the loops and folds of the import, row by row. */
module ImportEffect {
  import opened Options
  import opened MonoTypes
  import opened Reconciliation
  import opened TransactionImport

  // The invariant of the table: primary keys, provider IDs that belong to one row only, and a non-empty
  // canonical ID for every row.
  ghost predicate Consistent(rows: seq<Row>) {
    && DistinctRowIds(rows)
    && DisjointProviderIds(rows)
    && forall r :: r in rows ==> r.canonical != ""
  }

  // ---------- Aliases ----------

  // The aliases a row gains from the first n downloads.
  ghost function Gained(rows: seq<Row>, txs: seq<Download>, n: nat, row: Row): seq<string>
    requires n <= |txs|
  {
    if n == 0 then []
    else Gained(rows, txs, n - 1, row)
         + if GainsFrom(rows, txs, n - 1, row) then [ProviderId(txs[n - 1])] else []
  }

  ghost predicate GainsFrom(rows: seq<Row>, txs: seq<Download>, i: nat, row: Row)
    requires i < |txs|
  {
    Aliased(rows, txs, i) && Target(rows, txs, i).Some? && Target(rows, txs, i).value.id == row.id
  }

  lemma {:induction false} GainedMembers(rows: seq<Row>, txs: seq<Download>, n: nat, row: Row)
    requires n <= |txs|
    ensures forall i :: 0 <= i < n && GainsFrom(rows, txs, i, row) ==> ProviderId(txs[i]) in Gained(rows, txs, n, row)
    ensures forall pid :: pid in Gained(rows, txs, n, row) ==>
              exists i :: 0 <= i < n && GainsFrom(rows, txs, i, row) && ProviderId(txs[i]) == pid
  {
    hide GainsFrom, ProviderId;
    if n > 0 { GainedMembers(rows, txs, n - 1, row); }
  }

  // A row gains at most one alias per import.
  lemma {:induction false} GainedOnce(rows: seq<Row>, txs: seq<Download>, n: nat, row: Row)
    requires DistinctRowIds(rows) && n <= |txs|
    ensures |Gained(rows, txs, n, row)| <= 1
    ensures n < |txs| && GainsFrom(rows, txs, n, row) ==> Gained(rows, txs, n, row) == []
  {
    if n > 0 {
      GainedOnce(rows, txs, n - 1, row);
      if n < |txs| && GainsFrom(rows, txs, n, row) && Gained(rows, txs, n, row) != [] {
        GainedMembers(rows, txs, n, row);
        assert Gained(rows, txs, n, row)[0] in Gained(rows, txs, n, row);
        var i :| 0 <= i < n && GainsFrom(rows, txs, i, row);
        AliasedTargetsDiffer(rows, txs, i, n);
      }
    }
  }

  lemma {:induction false} AliasedStored(rows: seq<Row>, txs: seq<Download>, i: nat)
    requires DistinctRowIds(rows) && i < |txs| && Aliased(rows, txs, i)
    ensures Target(rows, txs, i).Some? && Target(rows, txs, i).value in rows
  {
    TargetIsStored(rows, txs, i);
  }

  lemma {:induction false} GainedStep(rows: seq<Row>, txs: seq<Download>, n: nat, row: Row)
    requires DistinctRowIds(rows) && 0 < n <= |txs| && row in rows
    ensures !Aliased(rows, txs, n - 1) ==> Gained(rows, txs, n, row) == Gained(rows, txs, n - 1, row)
    ensures Aliased(rows, txs, n - 1) ==> Target(rows, txs, n - 1).Some?
    ensures Aliased(rows, txs, n - 1) ==>
              var target := Target(rows, txs, n - 1).value;
              row.aliases + Gained(rows, txs, n, row)
                == if row.id == target.id then target.aliases + [ProviderId(txs[n - 1])]
                   else row.aliases + Gained(rows, txs, n - 1, row)
  {
    hide Aliased, Target, DistinctRowIds, ProviderId;
    if Aliased(rows, txs, n - 1) {
      AliasedStored(rows, txs, n - 1);
      if row.id == Target(rows, txs, n - 1).value.id {
        SameRow(rows, row, Target(rows, txs, n - 1).value);
        GainedOnce(rows, txs, n - 1, row);
      }
    }
  }

  lemma {:induction false} AliasedRows(rows: seq<Row>, txs: seq<Download>, n: nat)
    requires DistinctRowIds(rows) && n <= |txs|
    ensures var after := ApplyAliases(rows, AliasUpdates(rows, txs, n));
            && |after| == |rows|
            && forall k :: 0 <= k < |rows| ==>
                 after[k] == rows[k].(aliases := rows[k].aliases + Gained(rows, txs, n, rows[k]))
  {
    hide Aliased, Target, DistinctRowIds, Gained;
    if n == 0 {
      NothingGained(rows, txs);
    } else {
      AliasedRows(rows, txs, n - 1);
      var updates := AliasUpdates(rows, txs, n);
      if Aliased(rows, txs, n - 1) {
        assert updates[..|updates| - 1] == AliasUpdates(rows, txs, n - 1);
      }
      forall k | 0 <= k < |rows|
        ensures ApplyAliases(rows, updates)[k] == rows[k].(aliases := rows[k].aliases + Gained(rows, txs, n, rows[k]))
      {
        GainedStep(rows, txs, n, rows[k]);
      }
    }
  }

  lemma {:induction false} NothingGained(rows: seq<Row>, txs: seq<Download>)
    ensures forall k :: 0 <= k < |rows| ==> rows[k].aliases + Gained(rows, txs, 0, rows[k]) == rows[k].aliases
  {
  }

  // ---------- Kept transactions ----------

  // The last of the first n downloads that belongs to the row.
  ghost function LastFor(rows: seq<Row>, txs: seq<Download>, n: nat, row: Row): Option<nat>
    requires n <= |txs|
    ensures LastFor(rows, txs, n, row).Some? ==> LastFor(rows, txs, n, row).value < n
  {
    if n == 0 then None
    else if Target(rows, txs, n - 1) == Some(row) then Some(n - 1)
    else LastFor(rows, txs, n - 1, row)
  }

  lemma {:induction false} CanonicalIdentifies(rows: seq<Row>, a: Row, b: Row)
    requires Consistent(rows) && a in rows && b in rows && a.canonical == b.canonical
    ensures a == b
  {
    assert Knows(a, a.canonical) && Knows(b, a.canonical);
    SameRow(rows, a, b);
  }

  lemma {:induction false} KeptKey(rows: seq<Row>, txs: seq<Download>, i: nat, row: Row)
    requires Consistent(rows) && i < |txs| && row in rows
    ensures ProviderId(Canonicalised(rows, txs, i)) == row.canonical <==> Target(rows, txs, i) == Some(row)
  {
    if Target(rows, txs, i).Some? {
      TargetIsStored(rows, txs, i);
      if Target(rows, txs, i).value.canonical == row.canonical {
        CanonicalIdentifies(rows, Target(rows, txs, i).value, row);
      }
    } else {
      OwnerKnows(rows, ProviderId(txs[i]));
      assert Knows(row, row.canonical);
    }
  }

  lemma {:induction false} KeptStep(rows: seq<Row>, txs: seq<Download>, n: nat, key: string)
    requires 0 < n <= |txs|
    ensures JsMap.LastValue(Kept(rows, txs, n), key)
         == if !Suppressed(rows, txs, n - 1) && ProviderId(Canonicalised(rows, txs, n - 1)) == key
            then Some(Canonicalised(rows, txs, n - 1))
            else JsMap.LastValue(Kept(rows, txs, n - 1), key)
  {
  }

  // The kept transaction for a row is its last download; a deleted row has none.
  lemma {:induction false} KeptForRow(rows: seq<Row>, txs: seq<Download>, n: nat, row: Row)
    requires Consistent(rows) && n <= |txs| && row in rows
    ensures var last := LastFor(rows, txs, n, row);
            JsMap.LastValue(Kept(rows, txs, n), row.canonical)
              == if !row.deleted && last.Some? then Some(Canonicalised(rows, txs, last.value)) else None
  {
    hide Consistent, Target, Canonicalised, ProviderId;
    if n > 0 {
      KeptForRow(rows, txs, n - 1, row);
      KeptKey(rows, txs, n - 1, row);
      KeptStep(rows, txs, n, row.canonical);
    }
  }

  lemma {:induction false} KeptUnderOtherKey(rows: seq<Row>, txs: seq<Download>, i: nat, j: nat)
    requires Consistent(rows) && DistinctIds(txs)
    requires i < j < |txs| && Target(rows, txs, i).None?
    ensures ProviderId(Canonicalised(rows, txs, j)) != ProviderId(txs[i])
  {
    if Target(rows, txs, j).Some? {
      TargetIsStored(rows, txs, j);
      KeptKey(rows, txs, i, Target(rows, txs, j).value);
      KeptKey(rows, txs, j, Target(rows, txs, j).value);
    }
  }

  lemma {:induction false} KeptUnchanged(rows: seq<Row>, txs: seq<Download>, i: nat)
    requires i < |txs| && Target(rows, txs, i).None?
    ensures Canonicalised(rows, txs, i) == txs[i] && !Suppressed(rows, txs, i)
  {
  }

  // A download that belongs to no row is kept as it is, under its own ID.
  lemma {:induction false} KeptAsNew(rows: seq<Row>, txs: seq<Download>, n: nat, i: nat)
    requires Consistent(rows) && DistinctIds(txs) && i < n <= |txs| && Target(rows, txs, i).None?
    ensures JsMap.LastValue(Kept(rows, txs, n), ProviderId(txs[i])) == Some(txs[i])
  {
    hide Target, Consistent, DistinctIds, ProviderId, Canonicalised, Suppressed, Kept, JsMap.LastValue;
    KeptStep(rows, txs, n, ProviderId(txs[i]));
    KeptUnchanged(rows, txs, i);
    if i < n - 1 {
      KeptAsNew(rows, txs, n - 1, i);
      KeptUnderOtherKey(rows, txs, i, n - 1);
    }
  }

  // Every kept transaction is one of these two kinds.
  lemma {:induction false} KeptOrigin(rows: seq<Row>, txs: seq<Download>, n: nat, k: nat) returns (i: nat)
    requires n <= |txs| && k < |Kept(rows, txs, n)|
    ensures i < n && !Suppressed(rows, txs, i)
    ensures Kept(rows, txs, n)[k] == (ProviderId(Canonicalised(rows, txs, i)), Canonicalised(rows, txs, i))
  {
    if k < |Kept(rows, txs, n - 1)| {
      i := KeptOrigin(rows, txs, n - 1, k);
    } else {
      i := n - 1;
    }
  }

  // No reconciled transaction carries the canonical ID of a deleted row, so the later filter keeps them all.
  lemma {:induction false} DeletedRowsStaySuppressed(incoming: seq<Download>, rows: seq<Row>)
    requires Consistent(rows)
    ensures forall tx :: tx in Reconcile(incoming, rows).transactions ==> ProviderId(tx) !in SuppressedIds(rows)
    ensures Importable(Reconcile(incoming, rows).transactions, SuppressedIds(rows))
         == Reconcile(incoming, rows).transactions
  {
    var txs := Unique(incoming);
    TransactionKeys(rows, txs);
    forall tx | tx in Reconcile(incoming, rows).transactions ensures ProviderId(tx) !in SuppressedIds(rows) {
      if ProviderId(tx) in SuppressedIds(rows) {
        var row :| row in rows && row.deleted && row.canonical == ProviderId(tx);
        KeptForRow(rows, txs, |txs|, row);
      }
    }
    ImportableKeepsAll(Reconcile(incoming, rows).transactions, SuppressedIds(rows));
  }

  // ---------- Upserts ----------

  ghost function ContentAfter(row: Row, txs: seq<Download>, n: nat): Content
    requires n <= |txs|
  {
    if n == 0 then row.content
    else if ProviderId(txs[n - 1]) == row.canonical then StoredContent(txs[n - 1].content)
    else ContentAfter(row, txs, n - 1)
  }

  ghost predicate Inserted(rows: seq<Row>, txs: seq<Download>, i: nat, now: int, ids: seq<RowId>, row: Row) {
    i < |txs| <= |ids| && !HasCanonical(rows, ProviderId(txs[i])) && row == NewRow(txs[i], now, ids[i])
  }

  lemma {:induction false} UpsertedOld(rows: seq<Row>, txs: seq<Download>, n: nat, now: int, ids: seq<RowId>)
    requires n <= |txs| <= |ids|
    ensures var after := UpsertAll(rows, txs, n, now, ids);
            && |rows| <= |after|
            && forall k :: 0 <= k < |rows| ==> after[k] == rows[k].(content := ContentAfter(rows[k], txs, n))
  {
    if n > 0 {
      UpsertedOld(rows, txs, n - 1, now, ids);
      var before := UpsertAll(rows, txs, n - 1, now, ids);
      forall k | 0 <= k < |rows| && rows[k].canonical == ProviderId(txs[n - 1])
        ensures HasCanonical(before, rows[k].canonical)
      {
        assert before[k] in before;
      }
    }
  }

  lemma {:induction false} UpsertOneEffect(rows: seq<Row>, tx: Download, now: int, id: RowId)
    ensures |rows| <= |UpsertOne(rows, tx, now, id)|
    ensures HasCanonical(rows, ProviderId(tx)) ==> |UpsertOne(rows, tx, now, id)| == |rows|
    ensures !HasCanonical(rows, ProviderId(tx)) ==> UpsertOne(rows, tx, now, id) == rows + [NewRow(tx, now, id)]
    ensures forall k :: 0 <= k < |rows| && rows[k].canonical != ProviderId(tx) ==>
              UpsertOne(rows, tx, now, id)[k] == rows[k]
  {
  }

  lemma {:induction false} InsertedCanonical(rows: seq<Row>, txs: seq<Download>, i: nat, j: nat, now: int,
                                             ids: seq<RowId>, row: Row)
    requires DistinctIds(txs) && i < j < |txs| && Inserted(rows, txs, i, now, ids, row)
    ensures row.canonical != ProviderId(txs[j]) && row.id == ids[i]
  {
  }

  lemma {:induction false} StillMissing(rows: seq<Row>, txs: seq<Download>, n: nat, now: int, ids: seq<RowId>)
    requires n < |txs| <= |ids| && !HasCanonical(UpsertAll(rows, txs, n, now, ids), ProviderId(txs[n]))
    ensures Inserted(rows, txs, n, now, ids, NewRow(txs[n], now, ids[n]))
  {
    UpsertedOld(rows, txs, n, now, ids);
    var after := UpsertAll(rows, txs, n, now, ids);
    forall k | 0 <= k < |rows| ensures rows[k].canonical != ProviderId(txs[n]) {
      assert after[k] in after;
    }
  }

  // Every added row was inserted for one of the transactions.
  lemma {:induction false} UpsertedNew(rows: seq<Row>, txs: seq<Download>, n: nat, now: int, ids: seq<RowId>, k: nat)
    returns (i: nat)
    requires n <= |txs| <= |ids| && DistinctIds(txs)
    requires |rows| <= k < |UpsertAll(rows, txs, n, now, ids)|
    ensures i < n && Inserted(rows, txs, i, now, ids, UpsertAll(rows, txs, n, now, ids)[k])
  {
    hide DistinctIds, UpsertOne, Inserted, NewRow, HasCanonical, ProviderId;
    var before := UpsertAll(rows, txs, n - 1, now, ids);
    UpsertOneEffect(before, txs[n - 1], now, ids[n - 1]);
    if k < |before| {
      i := UpsertedNew(rows, txs, n - 1, now, ids, k);
      InsertedCanonical(rows, txs, i, n - 1, now, ids, before[k]);
    } else {
      i := n - 1;
      StillMissing(rows, txs, n - 1, now, ids);
    }
  }

  lemma {:induction false} NotYetInserted(rows: seq<Row>, txs: seq<Download>, n: nat, now: int, ids: seq<RowId>)
    requires n < |txs| <= |ids| && DistinctIds(txs) && !HasCanonical(rows, ProviderId(txs[n]))
    ensures !HasCanonical(UpsertAll(rows, txs, n, now, ids), ProviderId(txs[n]))
  {
    var after := UpsertAll(rows, txs, n, now, ids);
    UpsertedOld(rows, txs, n, now, ids);
    forall k | 0 <= k < |after| ensures after[k].canonical != ProviderId(txs[n]) {
      if k < |rows| {
        assert rows[k] in rows;
      } else {
        var i := UpsertedNew(rows, txs, n, now, ids, k);
      }
    }
  }

  // A transaction whose ID is not a canonical ID yet gets its own row.
  lemma {:induction false} UpsertInserts(rows: seq<Row>, txs: seq<Download>, n: nat, now: int, ids: seq<RowId>, i: nat)
    returns (k: nat)
    requires n <= |txs| <= |ids| && DistinctIds(txs) && i < n && !HasCanonical(rows, ProviderId(txs[i]))
    ensures |rows| <= k < |UpsertAll(rows, txs, n, now, ids)|
    ensures UpsertAll(rows, txs, n, now, ids)[k] == NewRow(txs[i], now, ids[i])
  {
    hide DistinctIds, UpsertOne, Inserted, NewRow, HasCanonical, ProviderId;
    var before := UpsertAll(rows, txs, n - 1, now, ids);
    UpsertOneEffect(before, txs[n - 1], now, ids[n - 1]);
    if i < n - 1 {
      k := UpsertInserts(rows, txs, n - 1, now, ids, i);
      NewRowCanonical(txs, i, n - 1, now, ids[i]);
    } else {
      NotYetInserted(rows, txs, n - 1, now, ids);
      UpsertedLength(rows, txs, n - 1, now, ids);
      k := |before|;
    }
  }

  lemma {:induction false} NewRowCanonical(txs: seq<Download>, i: nat, j: nat, now: int, id: RowId)
    requires DistinctIds(txs) && i < j < |txs|
    ensures NewRow(txs[i], now, id).canonical != ProviderId(txs[j])
  {
  }

  lemma {:induction false} UpsertedLength(rows: seq<Row>, txs: seq<Download>, n: nat, now: int, ids: seq<RowId>)
    requires n <= |txs| <= |ids|
    ensures |rows| <= |UpsertAll(rows, txs, n, now, ids)|
  {
    UpsertedOld(rows, txs, n, now, ids);
  }

  ghost predicate FreshIds(rows: seq<Row>, ids: seq<RowId>) {
    && (forall i, j :: 0 <= i < j < |ids| ==> ids[i] != ids[j])
    && (forall r :: r in rows ==> r.id !in ids)
  }

  lemma {:induction false} UpsertedId(rows: seq<Row>, txs: seq<Download>, n: nat, now: int, ids: seq<RowId>, k: nat)
    requires n < |txs| <= |ids| && DistinctIds(txs) && FreshIds(rows, ids)
    requires k < |UpsertAll(rows, txs, n, now, ids)|
    ensures UpsertAll(rows, txs, n, now, ids)[k].id != ids[n]
  {
    UpsertedOld(rows, txs, n, now, ids);
    if k < |rows| {
      assert rows[k] in rows;
    } else {
      var i := UpsertedNew(rows, txs, n, now, ids, k);
    }
  }

  lemma {:induction false} UpsertOneIds(rows: seq<Row>, tx: Download, now: int, id: RowId)
    requires DistinctRowIds(rows) && forall k :: 0 <= k < |rows| ==> rows[k].id != id
    ensures DistinctRowIds(UpsertOne(rows, tx, now, id))
  {
  }

  lemma {:induction false} UpsertKeepsKeys(rows: seq<Row>, txs: seq<Download>, n: nat, now: int, ids: seq<RowId>)
    requires n <= |txs| <= |ids| && DistinctIds(txs) && DistinctRowIds(rows) && FreshIds(rows, ids)
    ensures DistinctRowIds(UpsertAll(rows, txs, n, now, ids))
  {
    hide FreshIds, DistinctIds, UpsertOne, DistinctRowIds;
    if n > 0 {
      UpsertKeepsKeys(rows, txs, n - 1, now, ids);
      var before := UpsertAll(rows, txs, n - 1, now, ids);
      forall k | 0 <= k < |before| ensures before[k].id != ids[n - 1] {
        UpsertedId(rows, txs, n - 1, now, ids, k);
      }
      UpsertOneIds(before, txs[n - 1], now, ids[n - 1]);
    }
  }
}
