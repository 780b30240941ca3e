/** The table after one import, column by column. */
module ImportedRows {
  import opened MonoTypes
  import opened Reconciliation
  import opened TransactionImport
  import opened ImportEffect
  import opened ImportProperties
  import opened PaymentFields

  // The ID that a download carries; the second field counts only when the first is empty.
  predicate Carries(tx: Download, pid: string) {
    pid != "" && (tx.id == pid || (tx.id == "" && tx.altId == pid))
  }

  // The content columns that a download writes.
  predicate Holds(stored: Content, sent: Content) {
    && stored.date == sent.date && stored.amount == sent.amount && stored.kind == sent.kind
    && stored.narration == sent.narration && stored.metadata == sent.metadata
    && stored.balance == (if sent.balance.NotFinite? then Absent else sent.balance)
    && stored.currency == (if sent.currency == "" then "NGN" else sent.currency)
  }

  lemma {:induction false} DownloadsCarry(download: seq<Download>, i: nat)
    requires i < |Downloads(download)|
    ensures Downloads(download)[i] in download && Carries(Downloads(download)[i], ProviderId(Downloads(download)[i]))
  {
    var valid, u := WithId(download), Downloads(download);
    DownloadsNamed(download, i);
    UniqueIds(valid);
    var k := JsMap.LastValueWitness(Keyed(valid), ProviderId(u[i]));
    WithIdMembers(download);
    assert valid[k] == u[i] && valid[k] in valid;
  }

  lemma {:induction false} CarriedIsDownloaded(download: seq<Download>, tx: Download, pid: string) returns (i: nat)
    requires tx in download && Carries(tx, pid)
    ensures i < |Downloads(download)| && ProviderId(Downloads(download)[i]) == pid
  {
    var valid := WithId(download);
    WithIdMembers(download);
    UniqueIds(valid);
    assert tx in valid;
    i :| 0 <= i < |Downloads(download)| && ProviderId(Downloads(download)[i]) == pid;
  }

  // A stored row keeps its key, its age, its canonical ID, its categories and its deletion mark.
  lemma {:induction false} OldRowKeeps(rows: seq<Row>, download: seq<Download>, now: int, ids: seq<RowId>, k: nat)
    requires Consistent(rows) && |download| <= |ids| && k < |rows|
    ensures k < |ImportRows(rows, download, now, ids)|
    ensures var after := ImportRows(rows, download, now, ids)[k];
            && after.id == rows[k].id && after.createdAt == rows[k].createdAt && after.canonical == rows[k].canonical
            && after.categories == rows[k].categories && after.deleted == rows[k].deleted
            && (rows[k].deleted ==> after.content == rows[k].content)
  {
    hide ImportRows, Downloads, LastFor, Gained;
    OldRow(rows, download, now, ids, k);
  }

  // Its aliases grow by nothing, or by the ID of one download that no row knew and that agrees with it.
  lemma {:induction false} OldRowAliases(rows: seq<Row>, download: seq<Download>, now: int, ids: seq<RowId>, k: nat)
    requires Consistent(rows) && |download| <= |ids| && k < |rows|
    ensures k < |ImportRows(rows, download, now, ids)|
    ensures var after := ImportRows(rows, download, now, ids)[k];
            after.aliases == rows[k].aliases
            || exists tx, pid ::
                 && tx in download && Carries(tx, pid) && after.aliases == rows[k].aliases + [pid]
                 && (forall r :: r in rows ==> !Knows(r, pid))
                 && Complete(tx.content) && Agree(rows[k].content, tx.content)
  {
    hide ImportRows, Downloads, Target, Agree, Complete, DistinctRowIds, Knows, Carries, ProviderId;
    var txs, row := Downloads(download), rows[k];
    OldRow(rows, download, now, ids, k);
    ConsistentKeys(rows);
    GainedOnce(rows, txs, |txs|, row);
    var gained := Gained(rows, txs, |txs|, row);
    if gained != [] {
      GainedMembers(rows, txs, |txs|, row);
      assert gained[0] in gained;
      var i :| 0 <= i < |txs| && GainsFrom(rows, txs, i, row) && ProviderId(txs[i]) == gained[0];
      AliasedAgree(rows, txs, i);
      SameRow(rows, row, Target(rows, txs, i).value);
      OwnerKnows(rows, ProviderId(txs[i]));
      DownloadsCarry(download, i);
      assert gained == [gained[0]];
    }
  }

  // Unless it is deleted, its content becomes that of a download as soon as one carries an ID that it knows.
  lemma {:induction false} OldRowContent(rows: seq<Row>, download: seq<Download>, now: int, ids: seq<RowId>, k: nat)
    requires Consistent(rows) && |download| <= |ids| && k < |rows| && !rows[k].deleted
    ensures k < |ImportRows(rows, download, now, ids)|
    ensures var after := ImportRows(rows, download, now, ids)[k];
            && (after.content == rows[k].content || exists tx :: tx in download && Holds(after.content, tx.content))
            && ((exists tx, pid :: tx in download && Carries(tx, pid) && Knows(rows[k], pid)) ==>
                  exists tx, pid :: tx in download && Carries(tx, pid) && Knows(after, pid)
                                    && Holds(after.content, tx.content))
  {
    hide ImportRows, Downloads, Target, LastFor, Gained, Knows, Carries, ProviderId;
    var txs, row := Downloads(download), rows[k];
    var last := LastFor(rows, txs, |txs|, row);
    OldRow(rows, download, now, ids, k);
    LastForTarget(rows, txs, |txs|, row);
    if last.Some? {
      DownloadsCarry(download, last.value);
      TargetKnows(rows, txs, last.value);
    }
    if tx, pid :| tx in download && Carries(tx, pid) && Knows(row, pid) {
      var i := CarriedIsDownloaded(download, tx, pid);
      OwnerIs(rows, row, pid);
      KnownTarget(rows, txs, i);
    }
  }

  // An added row stores one download under its ID, with the suggested categories; no row knew that ID.
  lemma {:induction false} AddedRowHolds(rows: seq<Row>, download: seq<Download>, now: int, ids: seq<RowId>, k: nat)
    requires Consistent(rows) && |download| <= |ids| && |rows| <= k < |ImportRows(rows, download, now, ids)|
    ensures var added := ImportRows(rows, download, now, ids)[k];
            && added.id in ids && added.createdAt == now && added.aliases == [] && !added.deleted
            && (exists tx :: tx in download && Carries(tx, added.canonical)
                             && Holds(added.content, tx.content) && added.categories == tx.suggested)
            && (forall r :: r in rows ==> !Knows(r, added.canonical))
  {
    hide ImportRows, Downloads, Target, Written, Consistent, Knows, Carries, ProviderId;
    var i, j := AddedRow(rows, download, now, ids, k);
    DownloadsCarry(download, i);
    NoOwner(rows, Downloads(download), i);
    OwnerKnows(rows, ProviderId(Downloads(download)[i]));
  }

  // After the import, some row knows every ID that a download carries.
  lemma {:induction false} EveryIdIsKnown(rows: seq<Row>, download: seq<Download>, now: int, ids: seq<RowId>,
                                          tx: Download, pid: string)
    requires Consistent(rows) && |download| <= |ids| && FreshIds(rows, ids) && tx in download && Carries(tx, pid)
    ensures exists r :: r in ImportRows(rows, download, now, ids) && Knows(r, pid)
  {
    hide ImportRows, Downloads, Target, Consistent, Knows, Carries, FreshIds;
    var i := CarriedIsDownloaded(download, tx, pid);
    var k := OwnerAfter(rows, download, now, ids, i);
    OwnerKnows(ImportRows(rows, download, now, ids), pid);
  }

  // A download under an unknown ID that agrees with no stored row is added.
  lemma {:induction false} UnlikeDownloadIsAdded(rows: seq<Row>, download: seq<Download>, now: int, ids: seq<RowId>,
                                                 tx: Download, pid: string)
    requires Consistent(rows) && |download| <= |ids| && tx in download && Carries(tx, pid)
    requires forall r :: r in rows ==> !Knows(r, pid)
    requires forall t, r :: t in download && Carries(t, pid) && r in rows ==>
               !Complete(t.content) || !Agree(r.content, t.content)
    ensures exists k :: |rows| <= k < |ImportRows(rows, download, now, ids)|
                        && ImportRows(rows, download, now, ids)[k].canonical == pid
  {
    hide ImportRows, Downloads, Target, Knows, Carries, Complete, Agree, DistinctRowIds, DisjointProviderIds;
    var txs := Downloads(download);
    var i := CarriedIsDownloaded(download, tx, pid);
    DownloadsCarry(download, i);
    OwnerKnows(rows, pid);
    if Target(rows, txs, i).Some? { AliasedAgree(rows, txs, i); }
    var k := DownloadIsAdded(rows, download, now, ids, i);
  }
}
