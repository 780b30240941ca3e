/** Importing one download into the stored rows of an account (`upsertTransactionsWithRepository`). */
module TransactionImport {
  import opened Options
  import opened MonoTypes
  import opened Reconciliation

  const BATCH_SIZE: nat := 500

  // ---------- The three writes, as functions of the rows ----------

  // Stores the aliases of one row.
  function SetAliases(rows: seq<Row>, id: RowId, aliases: seq<string>): seq<Row> {
    seq(|rows|, k requires 0 <= k < |rows| => if rows[k].id == id then rows[k].(aliases := aliases) else rows[k])
  }

  function ApplyAliases(rows: seq<Row>, updates: seq<(RowId, seq<string>)>): seq<Row> {
    if updates == [] then rows
    else
      var last := updates[|updates| - 1];
      SetAliases(ApplyAliases(rows, updates[..|updates| - 1]), last.0, last.1)
  }

  predicate HasCanonical(rows: seq<Row>, canonical: string) {
    exists r :: r in rows && r.canonical == canonical
  }

  function NewRow(tx: Download, now: int, id: RowId): Row {
    Row(id, now, ProviderId(tx), [], StoredContent(tx.content), tx.suggested, false)
  }

  // One value of the upsert statement: a conflict on the canonical ID rewrites
  // the content columns and nothing else.
  function UpsertOne(rows: seq<Row>, tx: Download, now: int, id: RowId): seq<Row> {
    if HasCanonical(rows, ProviderId(tx)) then
      seq(|rows|, k requires 0 <= k < |rows| =>
        if rows[k].canonical == ProviderId(tx) then rows[k].(content := StoredContent(tx.content)) else rows[k])
    else rows + [NewRow(tx, now, id)]
  }

  function UpsertAll(rows: seq<Row>, txs: seq<Download>, n: nat, now: int, ids: seq<RowId>): seq<Row>
    requires n <= |txs| <= |ids|
  {
    if n == 0 then rows else UpsertOne(UpsertAll(rows, txs, n - 1, now, ids), txs[n - 1], now, ids[n - 1])
  }

  // The downloads that carry an ID.
  function WithId(txs: seq<Download>): (valid: seq<Download>)
    ensures |valid| <= |txs|
  {
    if txs == [] then []
    else (if ProviderId(txs[0]) != "" then [txs[0]] else []) + WithId(txs[1..])
  }

  function SuppressedIds(rows: seq<Row>): set<string> {
    set r | r in rows && r.deleted :: r.canonical
  }

  // The reconciled transactions that are not suppressed.
  function Importable(txs: seq<Download>, suppressed: set<string>): (kept: seq<Download>)
    ensures |kept| <= |txs|
  {
    if txs == [] then []
    else (if ProviderId(txs[0]) in suppressed then [] else [txs[0]]) + Importable(txs[1..], suppressed)
  }

  const BIGINT_LIMIT: int := 0x8000_0000_0000_0000

  predicate IsBigint(x: Number) {
    x.Integral? && -BIGINT_LIMIT <= x.n < BIGINT_LIMIT
  }

  // The amount and the balance are bigint columns and the date is a timestamp; the database refuses anything else.
  predicate Storable(tx: Download) {
    && tx.content.date.Some? && IsBigint(tx.content.amount)
    && (StoredContent(tx.content).balance.Absent? || IsBigint(tx.content.balance))
  }

  // What eight bytes hold.
  predicate FitsBigint(n: int) {
    -9223372036854775808 <= n <= 9223372036854775807
  }

  // The database takes a transaction with a date, an amount that fits, and a balance that fits or is none.
  lemma {:induction false} StorableFields(txs: seq<Download>)
    ensures forall tx :: tx in txs ==>
              (Storable(tx)
               <==> && tx.content.date.Some? && tx.content.amount.Integral? && FitsBigint(tx.content.amount.n)
                    && !tx.content.balance.Fractional?
                    && (tx.content.balance.Integral? ==> FitsBigint(tx.content.balance.n)))
  {
  }

  // The transactions that an import inserts or updates.
  function ToWrite(rows: seq<Row>, download: seq<Download>): seq<Download> {
    ReconcileShrinks(WithId(download), rows);
    Importable(Reconcile(WithId(download), rows).transactions, SuppressedIds(rows))
  }

  ghost predicate ImportSucceeds(rows: seq<Row>, download: seq<Download>) {
    DisjointProviderIds(rows) && forall tx :: tx in ToWrite(rows, download) ==> Storable(tx)
  }

  // The rows after importing a download; a row inserted for the i-th importable transaction gets ids[i].
  function ImportRows(rows: seq<Row>, download: seq<Download>, now: int, ids: seq<RowId>): seq<Row>
    requires |download| <= |ids|
  {
    var reconciled := Reconcile(WithId(download), rows);
    ReconcileShrinks(WithId(download), rows);
    var aliased := ApplyAliases(rows, reconciled.aliases);
    var txs := Importable(reconciled.transactions, SuppressedIds(rows));
    UpsertAll(aliased, txs, |txs|, now, ids)
  }

  lemma {:induction false} FromPairsShrinks<K, V>(pairs: seq<(K, V)>)
    ensures |JsMap.FromPairs(pairs)| <= |pairs|
  {
    if pairs != [] { FromPairsShrinks(pairs[..|pairs| - 1]); }
  }

  lemma {:induction false} KeptShrinks(rows: seq<Row>, txs: seq<Download>, n: nat)
    requires n <= |txs|
    ensures |Kept(rows, txs, n)| <= n
  {
    if n > 0 { KeptShrinks(rows, txs, n - 1); }
  }

  lemma {:induction false} ReconcileShrinks(incoming: seq<Download>, rows: seq<Row>)
    ensures Reconcile(incoming, rows).Reconciled?
    ensures |Reconcile(incoming, rows).transactions| <= |incoming|
  {
    var txs := Unique(incoming);
    FromPairsShrinks(Keyed(incoming));
    KeptShrinks(rows, txs, |txs|);
    FromPairsShrinks(Kept(rows, txs, |txs|));
  }

  // ---------- The repository ----------

  datatype ImportResult = Imported | Failed

  class TransactionRepository {
    var rows: seq<Row>

    constructor ()
      ensures rows == []
    {
      rows := [];
    }

    // One SQL statement; PostgreSQL refuses to touch the same row twice in it.
    method InsertBatch(values: seq<Download>, now: int, ids: seq<RowId>)
      requires |values| <= |ids|
      requires DistinctIds(values)
      modifies this
      ensures rows == UpsertAll(old(rows), values, |values|, now, ids)
    {
      hide UpsertOne, DistinctIds;
      for i := 0 to |values|
        invariant rows == UpsertAll(old(rows), values, i, now, ids)
      {
        rows := UpsertOne(rows, values[i], now, ids[i]);
      }
    }

    method UpdateAliases(updates: seq<(RowId, seq<string>)>)
      modifies this
      ensures rows == ApplyAliases(old(rows), updates)
    {
      for i := 0 to |updates|
        invariant rows == ApplyAliases(old(rows), updates[..i])
      {
        assert updates[..i + 1][..i] == updates[..i];
        rows := SetAliases(rows, updates[i].0, updates[i].1);
      }
      assert updates[..|updates|] == updates;
    }

    // Keeps each statement below the parameter limit.
    method InsertInBatches(txs: seq<Download>, now: int, ids: seq<RowId>)
      requires |txs| <= |ids| && DistinctIds(txs)
      modifies this
      ensures rows == UpsertAll(old(rows), txs, |txs|, now, ids)
    {
      hide UpsertOne;
      var offset := 0;
      while offset < |txs|
        invariant 0 <= offset <= |txs|
        invariant rows == UpsertAll(old(rows), txs, offset, now, ids)
      {
        var end := if offset + BATCH_SIZE < |txs| then offset + BATCH_SIZE else |txs|;
        InsertBatch(txs[offset..end], now, ids[offset..end]);
        UpsertBatch(old(rows), txs, offset, end - offset, end, now, ids);
        assert |txs[offset..end]| == end - offset;
        offset := end;
      }
    }

    // A conflict is found before anything is written, and the surrounding database transaction is rolled back when the
    // database refuses a value, so a failed import changes nothing.
    method UpsertTransactions(download: seq<Download>, now: int, ids: seq<RowId>) returns (result: ImportResult)
      requires DistinctRowIds(rows)
      requires |download| <= |ids|
      modifies this
      ensures result.Imported? <==> ImportSucceeds(old(rows), download)
      ensures result.Imported?
         <==> && DisjointProviderIds(old(rows))
              && forall tx :: tx in ToWrite(old(rows), download) ==>
                   && tx.content.date.Some?
                   && tx.content.amount.Integral? && FitsBigint(tx.content.amount.n)
                   && !tx.content.balance.Fractional?
                   && (tx.content.balance.Integral? ==> FitsBigint(tx.content.balance.n))
      ensures rows == if result.Imported? then ImportRows(old(rows), download, now, ids) else old(rows)
    {
      hide UpsertOne, SetAliases, Reconcile, DistinctIds, DisjointProviderIds, Storable;
      var existing := rows;
      var valid := WithId(download);
      var reconciled := ReconcileMonoTransactions(valid, existing);
      if reconciled.ConflictingAliases? {
        ReconcileShrinks(valid, existing);
        return Failed;
      }
      UpdateAliases(reconciled.aliases);
      var txs := Importable(reconciled.transactions, SuppressedIds(existing));
      ReconcileShrinks(valid, existing);
      ImportableIdsDiffer(valid, existing);
      StorableFields(txs);
      if exists tx :: tx in txs && !Storable(tx) {
        rows := existing;
        return Failed;
      }
      if |txs| > 0 { InsertInBatches(txs, now, ids); }
      result := Imported;
    }
  }

  // Batches of one statement each do the same as one statement for all values.
  lemma {:induction false} UpsertBatch(rows: seq<Row>, txs: seq<Download>, from: nat, n: nat, to: nat, now: int,
                                       ids: seq<RowId>)
    requires from + n <= to <= |txs| <= |ids|
    ensures UpsertAll(UpsertAll(rows, txs, from, now, ids), txs[from..to], n, now, ids[from..to])
         == UpsertAll(rows, txs, from + n, now, ids)
  {
    hide UpsertOne;
    if n > 0 {
      UpsertBatch(rows, txs, from, n - 1, to, now, ids);
      assert txs[from..to][n - 1] == txs[from + n - 1] && ids[from..to][n - 1] == ids[from + n - 1];
    }
  }

  lemma {:induction false} ImportableMembers(txs: seq<Download>, suppressed: set<string>)
    ensures forall tx :: tx in Importable(txs, suppressed) ==> tx in txs
  {
    if txs != [] {
      ImportableMembers(txs[1..], suppressed);
    }
  }

  lemma {:induction false} ImportableDistinct(txs: seq<Download>, suppressed: set<string>)
    requires DistinctIds(txs)
    ensures DistinctIds(Importable(txs, suppressed))
  {
    if txs != [] {
      ImportableDistinct(txs[1..], suppressed);
      ImportableMembers(txs[1..], suppressed);
      forall tx | tx in Importable(txs[1..], suppressed) ensures ProviderId(tx) != ProviderId(txs[0]) {
        var k :| 0 <= k < |txs[1..]| && txs[1..][k] == tx;
      }
    }
  }

  lemma {:induction false} ImportableKeepsAll(txs: seq<Download>, suppressed: set<string>)
    requires forall tx :: tx in txs ==> ProviderId(tx) !in suppressed
    ensures Importable(txs, suppressed) == txs
  {
    if txs != [] {
      ImportableKeepsAll(txs[1..], suppressed);
    }
  }

  // The reconciled transactions are stored under distinct IDs, so no statement touches a row twice.
  lemma {:induction false} ImportableIdsDiffer(incoming: seq<Download>, rows: seq<Row>)
    ensures DistinctIds(Reconcile(incoming, rows).transactions)
    ensures DistinctIds(Importable(Reconcile(incoming, rows).transactions, SuppressedIds(rows)))
  {
    TransactionKeys(rows, Unique(incoming));
    ImportableDistinct(Reconcile(incoming, rows).transactions, SuppressedIds(rows));
  }

  lemma {:induction false} KeptKeys(rows: seq<Row>, txs: seq<Download>, n: nat)
    requires n <= |txs|
    ensures forall k :: 0 <= k < |Kept(rows, txs, n)| ==> Kept(rows, txs, n)[k].0 == ProviderId(Kept(rows, txs, n)[k].1)
  {
    if n > 0 { KeptKeys(rows, txs, n - 1); }
  }

  // The final transactions, keyed by ID, hold the last kept value of each ID.
  lemma {:induction false} TransactionKeys(rows: seq<Row>, txs: seq<Download>)
    ensures var kept := Kept(rows, txs, |txs|);
            var final := JsMap.Values(JsMap.FromPairs(kept));
            && DistinctIds(final)
            && (forall tx :: tx in final <==> JsMap.LastValue(kept, ProviderId(tx)) == Some(tx))
            && (forall key :: JsMap.LastValue(kept, key).Some? ==> ProviderId(JsMap.LastValue(kept, key).value) == key)
  {
    var kept := Kept(rows, txs, |txs|);
    var m := JsMap.FromPairs(kept);
    var final := JsMap.Values(m);
    JsMap.FromPairsKeepsLast(kept);
    KeptKeys(rows, txs, |txs|);
    forall key | JsMap.LastValue(kept, key).Some? ensures ProviderId(JsMap.LastValue(kept, key).value) == key {
      var i := JsMap.LastValueWitness(kept, key);
    }
    forall k | 0 <= k < |m|
      ensures m[k].0 == ProviderId(m[k].1) && JsMap.LastValue(kept, m[k].0) == Some(m[k].1)
    {
      JsMap.GetAt(m, k);
      assert JsMap.Get(m, m[k].0) == JsMap.LastValue(kept, m[k].0);
    }
    forall tx | JsMap.LastValue(kept, ProviderId(tx)) == Some(tx) ensures tx in final {
      assert JsMap.Get(m, ProviderId(tx)) == Some(tx);
      assert final[JsMap.IndexOf(m, ProviderId(tx))] == tx;
    }
  }
}
