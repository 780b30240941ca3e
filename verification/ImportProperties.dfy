/** Theorems about one import: it keeps the table consistent, and repeating it changes nothing. */
module ImportProperties {
  import opened Options
  import opened MonoTypes
  import opened Reconciliation
  import opened TransactionImport
  import opened ImportEffect

  // The downloads that an import reconciles.
  function Downloads(download: seq<Download>): seq<Download> {
    Unique(WithId(download))
  }

  lemma {:induction false} DownloadsDistinct(download: seq<Download>)
    ensures DistinctIds(Downloads(download))
    ensures |Downloads(download)| <= |download|
  {
    UniqueIds(WithId(download));
    FromPairsShrinks(Keyed(WithId(download)));
  }

  lemma {:induction false} WithIdMembers(txs: seq<Download>)
    ensures forall tx :: tx in WithId(txs) ==> tx in txs && ProviderId(tx) != ""
    ensures forall tx :: tx in txs && ProviderId(tx) != "" ==> tx in WithId(txs)
  {
    if txs != [] {
      WithIdMembers(txs[1..]);
      assert txs == [txs[0]] + txs[1..];
    }
  }

  lemma {:induction false} DownloadsNamed(download: seq<Download>, i: nat)
    requires i < |Downloads(download)|
    ensures ProviderId(Downloads(download)[i]) != ""
  {
    var valid, u := WithId(download), Downloads(download);
    UniqueIds(valid);
    var k := JsMap.LastValueWitness(Keyed(valid), ProviderId(u[i]));
    WithIdMembers(download);
    assert valid[k] == u[i] && valid[k] in valid;
  }

  // The transactions that an import writes, in order.
  ghost function Written(rows: seq<Row>, download: seq<Download>): seq<Download> {
    Reconcile(WithId(download), rows).transactions
  }

  // ---------- The effect on each row ----------

  // A stored row after an import: at most one more alias, and the content of its last download unless deleted.
  ghost function Refreshed(rows: seq<Row>, txs: seq<Download>, row: Row): Row {
    var last := LastFor(rows, txs, |txs|, row);
    row.(aliases := row.aliases + Gained(rows, txs, |txs|, row),
         content := if !row.deleted && last.Some? then StoredContent(txs[last.value].content) else row.content)
  }

  lemma {:induction false} ContentFromWritten(row: Row, txs: seq<Download>, n: nat)
    requires DistinctIds(txs) && n <= |txs|
    ensures forall i :: 0 <= i < n && ProviderId(txs[i]) == row.canonical ==>
              ContentAfter(row, txs, n) == StoredContent(txs[i].content)
    ensures (forall i :: 0 <= i < n ==> ProviderId(txs[i]) != row.canonical) ==>
              ContentAfter(row, txs, n) == row.content
  {
    if n > 0 { ContentFromWritten(row, txs, n - 1); }
  }

  lemma {:induction false} ImportIsUpsert(rows: seq<Row>, download: seq<Download>, now: int, ids: seq<RowId>)
    requires Consistent(rows) && |download| <= |ids|
    ensures var txs := Downloads(download);
            var written := Written(rows, download);
            && DistinctIds(written) && |written| <= |ids|
            && ImportRows(rows, download, now, ids)
                 == UpsertAll(ApplyAliases(rows, AliasUpdates(rows, txs, |txs|)), written, |written|, now, ids)
  {
    ReconcileShrinks(WithId(download), rows);
    DeletedRowsStaySuppressed(WithId(download), rows);
    TransactionKeys(rows, Downloads(download));
  }

  lemma {:induction false} WrittenContent(rows: seq<Row>, download: seq<Download>, row: Row, aliased: Row)
    requires Consistent(rows) && row in rows && aliased.canonical == row.canonical && aliased.content == row.content
    ensures ContentAfter(aliased, Written(rows, download), |Written(rows, download)|)
         == Refreshed(rows, Downloads(download), row).content
  {
    var txs, written := Downloads(download), Written(rows, download);
    var last := LastFor(rows, txs, |txs|, row);
    TransactionKeys(rows, txs);
    KeptForRow(rows, txs, |txs|, row);
    ContentFromWritten(aliased, written, |written|);
    if !row.deleted && last.Some? {
      var tx := Canonicalised(rows, txs, last.value);
      LastForTarget(rows, txs, |txs|, row);
      KeptKey(rows, txs, last.value, row);
      assert tx in written;
      var i :| 0 <= i < |written| && written[i] == tx;
      assert ContentAfter(aliased, written, |written|) == StoredContent(written[i].content);
    } else {
      forall i | 0 <= i < |written| ensures ProviderId(written[i]) != row.canonical {
        assert written[i] in written;
      }
    }
  }

  lemma {:induction false} LastForTarget(rows: seq<Row>, txs: seq<Download>, n: nat, row: Row)
    requires n <= |txs|
    ensures LastFor(rows, txs, n, row).Some? ==> Target(rows, txs, LastFor(rows, txs, n, row).value) == Some(row)
    ensures forall i :: 0 <= i < n && Target(rows, txs, i) == Some(row) ==>
              LastFor(rows, txs, n, row).Some? && i <= LastFor(rows, txs, n, row).value
  {
    if n > 0 { LastForTarget(rows, txs, n - 1, row); }
  }

  lemma {:induction false} OldRow(rows: seq<Row>, download: seq<Download>, now: int, ids: seq<RowId>, k: nat)
    requires Consistent(rows) && |download| <= |ids| && k < |rows|
    ensures k < |ImportRows(rows, download, now, ids)|
    ensures ImportRows(rows, download, now, ids)[k] == Refreshed(rows, Downloads(download), rows[k])
  {
    hide Consistent, ImportRows, Written, Downloads, AliasUpdates, ContentAfter, UpsertOne;
    var txs, written := Downloads(download), Written(rows, download);
    ImportIsUpsert(rows, download, now, ids);
    ConsistentKeys(rows);
    AliasedRows(rows, txs, |txs|);
    var aliased := ApplyAliases(rows, AliasUpdates(rows, txs, |txs|));
    UpsertedOld(aliased, written, |written|, now, ids);
    WrittenContent(rows, download, rows[k], aliased[k]);
  }

  lemma {:induction false} ConsistentKeys(rows: seq<Row>)
    requires Consistent(rows)
    ensures DistinctRowIds(rows)
  {
  }

  lemma {:induction false} SameCanonicals(rows: seq<Row>, txs: seq<Download>, canonical: string)
    requires DistinctRowIds(rows)
    ensures HasCanonical(ApplyAliases(rows, AliasUpdates(rows, txs, |txs|)), canonical)
       <==> HasCanonical(rows, canonical)
  {
    AliasedRows(rows, txs, |txs|);
    var aliased := ApplyAliases(rows, AliasUpdates(rows, txs, |txs|));
    if HasCanonical(rows, canonical) {
      var k :| 0 <= k < |rows| && rows[k].canonical == canonical;
      assert aliased[k] in aliased;
    }
    if HasCanonical(aliased, canonical) {
      var k :| 0 <= k < |aliased| && aliased[k].canonical == canonical;
      assert rows[k] in rows;
    }
  }

  // A written transaction is under a stored canonical ID, or is a download that belongs to no row.
  lemma {:induction false} WrittenOrigin(rows: seq<Row>, download: seq<Download>, j: nat) returns (i: nat)
    requires Consistent(rows) && j < |Written(rows, download)|
    ensures i < |Downloads(download)|
    ensures Written(rows, download)[j] == Canonicalised(rows, Downloads(download), i)
    ensures !HasCanonical(rows, ProviderId(Written(rows, download)[j])) ==>
              Target(rows, Downloads(download), i).None? && Written(rows, download)[j] == Downloads(download)[i]
  {
    var txs, written := Downloads(download), Written(rows, download);
    TransactionKeys(rows, txs);
    assert written[j] in written;
    var k := JsMap.LastValueWitness(Kept(rows, txs, |txs|), ProviderId(written[j]));
    i := KeptOrigin(rows, txs, |txs|, k);
    if Target(rows, txs, i).Some? {
      TargetIsStored(rows, txs, i);
      assert ProviderId(written[j]) == Target(rows, txs, i).value.canonical;
    }
  }

  // Every added row stores a download that belonged to no row; the j-th written transaction gets ids[j].
  lemma {:induction false} AddedRow(rows: seq<Row>, download: seq<Download>, now: int, ids: seq<RowId>, k: nat)
    returns (i: nat, j: nat)
    requires Consistent(rows) && |download| <= |ids|
    requires |rows| <= k < |ImportRows(rows, download, now, ids)|
    ensures i < |Downloads(download)| && Target(rows, Downloads(download), i).None?
    ensures j < |Written(rows, download)| <= |ids| && Written(rows, download)[j] == Downloads(download)[i]
    ensures ImportRows(rows, download, now, ids)[k] == NewRow(Downloads(download)[i], now, ids[j])
  {
    hide Consistent, ImportRows, Written, Downloads, AliasUpdates, UpsertOne, HasCanonical, Target, NewRow;
    var txs, written := Downloads(download), Written(rows, download);
    ImportIsUpsert(rows, download, now, ids);
    ConsistentKeys(rows);
    AliasedRows(rows, txs, |txs|);
    var aliased := ApplyAliases(rows, AliasUpdates(rows, txs, |txs|));
    j := UpsertedNew(aliased, written, |written|, now, ids, k);
    SameCanonicals(rows, txs, ProviderId(written[j]));
    i := WrittenOrigin(rows, download, j);
  }

  // A download that belongs to no row is added.
  lemma {:induction false} DownloadIsAdded(rows: seq<Row>, download: seq<Download>, now: int, ids: seq<RowId>,
                                           i: nat) returns (k: nat)
    requires Consistent(rows) && |download| <= |ids|
    requires i < |Downloads(download)| && Target(rows, Downloads(download), i).None?
    ensures |rows| <= k < |ImportRows(rows, download, now, ids)|
    ensures ImportRows(rows, download, now, ids)[k]
         == NewRow(Downloads(download)[i], now, ImportRows(rows, download, now, ids)[k].id)
  {
    hide ImportRows, Downloads, AliasUpdates, UpsertOne, Target, Consistent;
    var txs, written := Downloads(download), Written(rows, download);
    ImportIsUpsert(rows, download, now, ids);
    ConsistentKeys(rows);
    AliasedRows(rows, txs, |txs|);
    var aliased := ApplyAliases(rows, AliasUpdates(rows, txs, |txs|));
    var j := NewIsWritten(rows, download, i);
    SameCanonicals(rows, txs, ProviderId(txs[i]));
    k := UpsertInserts(aliased, written, |written|, now, ids, j);
  }

  lemma {:induction false} NewIsWritten(rows: seq<Row>, download: seq<Download>, i: nat) returns (j: nat)
    requires Consistent(rows) && i < |Downloads(download)| && Target(rows, Downloads(download), i).None?
    ensures j < |Written(rows, download)| && Written(rows, download)[j] == Downloads(download)[i]
    ensures !HasCanonical(rows, ProviderId(Downloads(download)[i]))
  {
    var txs, written := Downloads(download), Written(rows, download);
    DownloadsDistinct(download);
    KeptAsNew(rows, txs, |txs|, i);
    TransactionKeys(rows, txs);
    assert txs[i] in written;
    j :| 0 <= j < |written| && written[j] == txs[i];
    OwnerKnows(rows, ProviderId(txs[i]));
    forall r | r in rows ensures r.canonical != ProviderId(txs[i]) {
      assert Knows(r, r.canonical);
    }
  }

  // ---------- Consistency ----------

  // Why a row knows an ID after an import: it knew it before, or download i brought it.
  lemma {:induction false} KnowsBecause(rows: seq<Row>, download: seq<Download>, now: int, ids: seq<RowId>, k: nat,
                                        pid: string)
    returns (before: bool, i: nat)
    requires Consistent(rows) && |download| <= |ids| && k < |ImportRows(rows, download, now, ids)|
    requires Knows(ImportRows(rows, download, now, ids)[k], pid)
    ensures before ==> k < |rows| && Knows(rows[k], pid)
    ensures !before ==> Brings(rows, Downloads(download), i, pid)
    ensures !before ==> Target(rows, Downloads(download), i) == if k < |rows| then Some(rows[k]) else None
  {
    hide ImportRows, Downloads, Target, Gained;
    var txs := Downloads(download);
    if k < |rows| {
      OldRow(rows, download, now, ids, k);
      before, i := Knows(rows[k], pid), 0;
      if !before {
        GainedMembers(rows, txs, |txs|, rows[k]);
        i :| 0 <= i < |txs| && GainsFrom(rows, txs, i, rows[k]) && ProviderId(txs[i]) == pid;
        TargetIsStored(rows, txs, i);
        SameRow(rows, Target(rows, txs, i).value, rows[k]);
      }
    } else {
      var j;
      before := false;
      i, j := AddedRow(rows, download, now, ids, k);
      NoOwner(rows, txs, i);
    }
  }

  // Download i carries an ID that no stored row knows.
  ghost predicate Brings(rows: seq<Row>, txs: seq<Download>, i: nat, pid: string) {
    i < |txs| && ProviderId(txs[i]) == pid && Owner(rows, pid).None?
  }

  lemma {:induction false} NoOwner(rows: seq<Row>, txs: seq<Download>, i: nat)
    requires i < |txs| && Target(rows, txs, i).None?
    ensures Owner(rows, ProviderId(txs[i])).None?
  {
  }

  lemma {:induction false} BringsOnce(rows: seq<Row>, download: seq<Download>, i: nat, j: nat, pid: string)
    requires Brings(rows, Downloads(download), i, pid) && Brings(rows, Downloads(download), j, pid)
    ensures i == j
  {
    DownloadsDistinct(download);
  }

  lemma {:induction false} BringsUnknown(rows: seq<Row>, txs: seq<Download>, i: nat, pid: string, row: Row)
    requires Brings(rows, txs, i, pid) && row in rows
    ensures !Knows(row, pid)
  {
    OwnerKnows(rows, pid);
  }

  lemma {:induction false} AddedOnce(rows: seq<Row>, download: seq<Download>, now: int, ids: seq<RowId>, a: nat,
                                     b: nat, pid: string)
    requires Consistent(rows) && |download| <= |ids|
    requires |rows| <= a < |ImportRows(rows, download, now, ids)|
    requires |rows| <= b < |ImportRows(rows, download, now, ids)|
    requires Knows(ImportRows(rows, download, now, ids)[a], pid) && Knows(ImportRows(rows, download, now, ids)[b], pid)
    ensures ImportRows(rows, download, now, ids)[a].id == ImportRows(rows, download, now, ids)[b].id
  {
    hide ImportRows, Downloads, Target, Written, DistinctIds;
    var i, x := AddedRow(rows, download, now, ids, a);
    var j, y := AddedRow(rows, download, now, ids, b);
    ImportIsUpsert(rows, download, now, ids);
    SameWritten(Written(rows, download), x, y);
  }

  lemma {:induction false} SameWritten(txs: seq<Download>, x: nat, y: nat)
    requires DistinctIds(txs) && x < |txs| && y < |txs| && ProviderId(txs[x]) == ProviderId(txs[y])
    ensures x == y
  {
  }

  lemma {:induction false} OneRowPerId(rows: seq<Row>, download: seq<Download>, now: int, ids: seq<RowId>, a: nat,
                                       b: nat, pid: string)
    requires Consistent(rows) && |download| <= |ids| && FreshIds(rows, ids)
    requires a < |ImportRows(rows, download, now, ids)| && b < |ImportRows(rows, download, now, ids)|
    requires Knows(ImportRows(rows, download, now, ids)[a], pid) && Knows(ImportRows(rows, download, now, ids)[b], pid)
    ensures ImportRows(rows, download, now, ids)[a].id == ImportRows(rows, download, now, ids)[b].id
  {
    hide ImportRows, Downloads, Target, Brings, Knows;
    var txs := Downloads(download);
    var aBefore, i := KnowsBecause(rows, download, now, ids, a, pid);
    var bBefore, j := KnowsBecause(rows, download, now, ids, b, pid);
    if a < |rows| { OldRow(rows, download, now, ids, a); }
    if b < |rows| { OldRow(rows, download, now, ids, b); }
    if aBefore && bBefore {
      OwnerIs(rows, rows[a], pid);
      OwnerIs(rows, rows[b], pid);
    } else if aBefore {
      BringsUnknown(rows, txs, j, pid, rows[a]);
    } else if bBefore {
      BringsUnknown(rows, txs, i, pid, rows[b]);
    } else {
      BringsOnce(rows, download, i, j, pid);
      if |rows| <= a { AddedOnce(rows, download, now, ids, a, b, pid); }
    }
  }

  lemma {:induction false} ImportKeepsRowIds(rows: seq<Row>, download: seq<Download>, now: int, ids: seq<RowId>)
    requires Consistent(rows) && |download| <= |ids| && FreshIds(rows, ids)
    ensures DistinctRowIds(ImportRows(rows, download, now, ids))
  {
    hide Written, Downloads, ImportRows;
    var txs, written := Downloads(download), Written(rows, download);
    ImportIsUpsert(rows, download, now, ids);
    AliasedRows(rows, txs, |txs|);
    var aliased := ApplyAliases(rows, AliasUpdates(rows, txs, |txs|));
    forall r | r in aliased ensures r.id !in ids {
      var k :| 0 <= k < |aliased| && aliased[k] == r;
      assert rows[k] in rows;
    }
    UpsertKeepsKeys(aliased, written, |written|, now, ids);
  }

  // An import keeps the table consistent, so the next import cannot find conflicting aliases.
  lemma {:induction false} ImportKeepsConsistent(rows: seq<Row>, download: seq<Download>, now: int, ids: seq<RowId>)
    requires Consistent(rows) && |download| <= |ids| && FreshIds(rows, ids)
    ensures Consistent(ImportRows(rows, download, now, ids))
  {
    hide ImportRows, Downloads, Knows;
    var after := ImportRows(rows, download, now, ids);
    ImportKeepsRowIds(rows, download, now, ids);
    forall a, b, pid | a in after && b in after && Knows(a, pid) && Knows(b, pid) ensures a.id == b.id {
      var x :| 0 <= x < |after| && after[x] == a;
      var y :| 0 <= y < |after| && after[y] == b;
      OneRowPerId(rows, download, now, ids, x, y, pid);
    }
    forall r | r in after ensures r.canonical != "" {
      var k :| 0 <= k < |after| && after[k] == r;
      if k < |rows| {
        OldRow(rows, download, now, ids, k);
        assert rows[k] in rows;
      } else {
        var i, j := AddedRow(rows, download, now, ids, k);
        DownloadsNamed(download, i);
      }
    }
  }

  // ---------- Importing twice ----------

  // After an import, every downloaded ID is known: to the row it was given to, or to the row it was added as.
  lemma {:induction false} OwnerAfter(rows: seq<Row>, download: seq<Download>, now: int, ids: seq<RowId>,
                                      i: nat) returns (k: nat)
    requires Consistent(rows) && |download| <= |ids| && FreshIds(rows, ids) && i < |Downloads(download)|
    ensures k < |ImportRows(rows, download, now, ids)|
    ensures Owner(ImportRows(rows, download, now, ids), ProviderId(Downloads(download)[i]))
         == Some(ImportRows(rows, download, now, ids)[k])
    ensures Target(rows, Downloads(download), i) == if k < |rows| then Some(rows[k]) else None
    ensures |rows| <= k ==> ImportRows(rows, download, now, ids)[k]
                              == NewRow(Downloads(download)[i], now, ImportRows(rows, download, now, ids)[k].id)
  {
    hide ImportRows, Downloads, Target;
    var txs, after := Downloads(download), ImportRows(rows, download, now, ids);
    ImportKeepsConsistent(rows, download, now, ids);
    if Target(rows, txs, i).Some? {
      TargetIsStored(rows, txs, i);
      k :| 0 <= k < |rows| && rows[k] == Target(rows, txs, i).value;
      OldRow(rows, download, now, ids, k);
      TargetKnows(rows, txs, i);
    } else {
      k := DownloadIsAdded(rows, download, now, ids, i);
    }
    assert after[k] in after && Knows(after[k], ProviderId(txs[i]));
    OwnerIs(after, after[k], ProviderId(txs[i]));
  }

  lemma {:induction false} TargetKnows(rows: seq<Row>, txs: seq<Download>, i: nat)
    requires i < |txs| && Target(rows, txs, i).Some?
    ensures Knows(Refreshed(rows, txs, Target(rows, txs, i).value), ProviderId(txs[i]))
  {
    var row := Target(rows, txs, i).value;
    OwnerKnows(rows, ProviderId(txs[i]));
    GainedMembers(rows, txs, |txs|, row);
    if Aliased(rows, txs, i) { assert GainsFrom(rows, txs, i, row); }
  }

  lemma {:induction false} KnownTarget(rows: seq<Row>, txs: seq<Download>, i: nat)
    requires i < |txs| && Owner(rows, ProviderId(txs[i])).Some?
    ensures Target(rows, txs, i) == Owner(rows, ProviderId(txs[i])) && !Aliased(rows, txs, i)
  {
  }

  lemma {:induction false} NothingAliased(rows: seq<Row>, txs: seq<Download>, n: nat)
    requires n <= |txs| && forall i :: 0 <= i < n ==> !Aliased(rows, txs, i)
    ensures AliasUpdates(rows, txs, n) == []
    ensures forall row :: Gained(rows, txs, n, row) == []
  {
    if n > 0 { NothingAliased(rows, txs, n - 1); }
  }

  // The second import of a download finds every ID known and adds no alias.
  lemma {:induction false} SecondImportKnowsAll(rows: seq<Row>, download: seq<Download>, now: int, ids: seq<RowId>)
    requires Consistent(rows) && |download| <= |ids| && FreshIds(rows, ids)
    ensures var after, txs := ImportRows(rows, download, now, ids), Downloads(download);
            && (forall i :: 0 <= i < |txs| ==> Target(after, txs, i).Some?)
            && Reconcile(WithId(download), after).aliases == []
            && (forall row :: Gained(after, txs, |txs|, row) == [])
  {
    hide ImportRows, Unique, Target, Aliased;
    var after, txs := ImportRows(rows, download, now, ids), Downloads(download);
    forall i | 0 <= i < |txs| ensures Target(after, txs, i).Some? && !Aliased(after, txs, i) {
      var k := OwnerAfter(rows, download, now, ids, i);
      KnownTarget(after, txs, i);
    }
    NothingAliased(after, txs, |txs|);
  }

  lemma {:induction false} RowIndex(rows: seq<Row>, a: nat, b: nat)
    requires DistinctRowIds(rows) && a < |rows| && b < |rows| && rows[a].id == rows[b].id
    ensures a == b
  {
  }

  // The second import gives each download to the same row.
  lemma {:induction false} SameTarget(rows: seq<Row>, download: seq<Download>, now: int, ids: seq<RowId>, i: nat,
                                      k: nat)
    requires Consistent(rows) && |download| <= |ids| && FreshIds(rows, ids) && i < |Downloads(download)|
    requires k < |ImportRows(rows, download, now, ids)|
    ensures k < |rows| ==>
              (Target(ImportRows(rows, download, now, ids), Downloads(download), i)
                 == Some(ImportRows(rows, download, now, ids)[k])
               <==> Target(rows, Downloads(download), i) == Some(rows[k]))
    ensures |rows| <= k ==>
              (Target(ImportRows(rows, download, now, ids), Downloads(download), i)
                 == Some(ImportRows(rows, download, now, ids)[k])
               ==> ImportRows(rows, download, now, ids)[k].content == StoredContent(Downloads(download)[i].content))
  {
    hide ImportRows, Downloads, Target, Consistent, FreshIds;
    var txs, after := Downloads(download), ImportRows(rows, download, now, ids);
    var m := OwnerAfter(rows, download, now, ids, i);
    KnownTarget(after, txs, i);
    ImportKeepsConsistent(rows, download, now, ids);
    ConsistentKeys(after);
    ConsistentKeys(rows);
    if after[m] == after[k] { RowIndex(after, m, k); }
    if k < |rows| && m < |rows| && rows[m] == rows[k] { RowIndex(rows, m, k); }
  }

  lemma {:induction false} SameLast(rows: seq<Row>, download: seq<Download>, now: int, ids: seq<RowId>, k: nat, n: nat)
    requires Consistent(rows) && |download| <= |ids| && FreshIds(rows, ids)
    requires k < |rows| && k < |ImportRows(rows, download, now, ids)| && n <= |Downloads(download)|
    ensures LastFor(ImportRows(rows, download, now, ids), Downloads(download), n,
                    ImportRows(rows, download, now, ids)[k])
         == LastFor(rows, Downloads(download), n, rows[k])
  {
    hide ImportRows, Downloads, Target, Consistent, FreshIds;
    if n > 0 {
      SameLast(rows, download, now, ids, k, n - 1);
      SameTarget(rows, download, now, ids, n - 1, k);
    }
  }

  lemma {:induction false} SecondImportKeepsRow(rows: seq<Row>, download: seq<Download>, now: int, ids: seq<RowId>,
                                                k: nat)
    requires Consistent(rows) && |download| <= |ids| && FreshIds(rows, ids)
    requires k < |ImportRows(rows, download, now, ids)|
    ensures Refreshed(ImportRows(rows, download, now, ids), Downloads(download),
                      ImportRows(rows, download, now, ids)[k])
         == ImportRows(rows, download, now, ids)[k]
  {
    hide ImportRows, Downloads, Target, Consistent, FreshIds, Reconcile;
    var txs, after := Downloads(download), ImportRows(rows, download, now, ids);
    SecondImportKnowsAll(rows, download, now, ids);
    if k < |rows| {
      OldRow(rows, download, now, ids, k);
      SameLast(rows, download, now, ids, k, |txs|);
    } else {
      var last := LastFor(after, txs, |txs|, after[k]);
      LastForTarget(after, txs, |txs|, after[k]);
      if last.Some? { SameTarget(rows, download, now, ids, last.value, k); }
    }
  }

  ghost predicate SameKeys<V, W>(a: seq<(string, V)>, b: seq<(string, W)>) {
    |a| == |b| && forall k :: 0 <= k < |a| ==> a[k].0 == b[k].0
  }

  lemma {:induction false} SameIndex<V, W>(a: seq<(string, V)>, b: seq<(string, W)>, key: string)
    requires SameKeys(a, b)
    ensures JsMap.IndexOf(a, key) == JsMap.IndexOf(b, key)
  {
  }

  lemma {:induction false} SameMapKeys<V, W>(a: seq<(string, V)>, b: seq<(string, W)>)
    requires SameKeys(a, b)
    ensures SameKeys(JsMap.FromPairs(a), JsMap.FromPairs(b))
  {
    if a != [] {
      SameMapKeys(a[..|a| - 1], b[..|b| - 1]);
      SameIndex(JsMap.FromPairs(a[..|a| - 1]), JsMap.FromPairs(b[..|b| - 1]), a[|a| - 1].0);
    }
  }

  // The second import stores each download under the same ID as the first.
  lemma {:induction false} SameStoredId(rows: seq<Row>, download: seq<Download>, now: int, ids: seq<RowId>, i: nat)
    requires Consistent(rows) && |download| <= |ids| && FreshIds(rows, ids) && i < |Downloads(download)|
    ensures var after, txs := ImportRows(rows, download, now, ids), Downloads(download);
            && Suppressed(after, txs, i) == Suppressed(rows, txs, i)
            && ProviderId(Canonicalised(after, txs, i)) == ProviderId(Canonicalised(rows, txs, i))
  {
    hide ImportRows, Unique, Target, Consistent, FreshIds;
    var after, txs := ImportRows(rows, download, now, ids), Downloads(download);
    var k := OwnerAfter(rows, download, now, ids, i);
    KnownTarget(after, txs, i);
    if k < |rows| { OldRow(rows, download, now, ids, k); }
    DownloadsNamed(download, i);
  }

  lemma {:induction false} SameKeptIds(rows: seq<Row>, download: seq<Download>, now: int, ids: seq<RowId>, n: nat)
    requires Consistent(rows) && |download| <= |ids| && FreshIds(rows, ids) && n <= |Downloads(download)|
    ensures SameKeys(Kept(ImportRows(rows, download, now, ids), Downloads(download), n),
                     Kept(rows, Downloads(download), n))
  {
    hide ImportRows, Downloads, Consistent, FreshIds, Suppressed, Canonicalised, ProviderId;
    if n > 0 {
      SameKeptIds(rows, download, now, ids, n - 1);
      SameStoredId(rows, download, now, ids, n - 1);
    }
  }

  // Both imports write the same canonical IDs, in the same order.
  lemma {:induction false} SameCanonicalIds(rows: seq<Row>, download: seq<Download>, now: int, ids: seq<RowId>)
    requires Consistent(rows) && |download| <= |ids| && FreshIds(rows, ids)
    ensures var first, second := Written(rows, download), Written(ImportRows(rows, download, now, ids), download);
            && |first| == |second|
            && forall k :: 0 <= k < |first| ==> ProviderId(first[k]) == ProviderId(second[k])
  {
    hide ImportRows, Unique, Consistent, FreshIds, Kept, AliasUpdates;
    var txs, after := Downloads(download), ImportRows(rows, download, now, ids);
    SameKeptIds(rows, download, now, ids, |txs|);
    var first, second := JsMap.FromPairs(Kept(rows, txs, |txs|)), JsMap.FromPairs(Kept(after, txs, |txs|));
    SameMapKeys(Kept(after, txs, |txs|), Kept(rows, txs, |txs|));
    WrittenKeys(rows, txs);
    WrittenKeys(after, txs);
    assert KeyedById(first) && KeyedById(second);
    forall k | 0 <= k < |first| ensures ProviderId(first[k].1) == ProviderId(second[k].1) {
      assert first[k].0 == second[k].0;
    }
  }

  ghost predicate KeyedById(m: seq<(string, Download)>) {
    forall k :: 0 <= k < |m| ==> m[k].0 == ProviderId(m[k].1)
  }

  lemma {:induction false} WrittenKeys(rows: seq<Row>, txs: seq<Download>)
    ensures KeyedById(JsMap.FromPairs(Kept(rows, txs, |txs|)))
  {
    var kept := Kept(rows, txs, |txs|);
    var m := JsMap.FromPairs(kept);
    JsMap.FromPairsKeepsLast(kept);
    KeptKeys(rows, txs, |txs|);
    forall k | 0 <= k < |m| ensures m[k].0 == ProviderId(m[k].1) {
      JsMap.GetAt(m, k);
      assert JsMap.Get(m, m[k].0) == JsMap.LastValue(kept, m[k].0);
      var i := JsMap.LastValueWitness(kept, m[k].0);
    }
  }

  // Importing the same download twice is importing it once: the second import changes no row, adds none,
  // and adds no alias.
  lemma {:induction false} ImportTwice(rows: seq<Row>, download: seq<Download>, now: int, ids: seq<RowId>, later: int,
                                       moreIds: seq<RowId>)
    requires Consistent(rows) && |download| <= |ids| && FreshIds(rows, ids) && |download| <= |moreIds|
    ensures ImportRows(ImportRows(rows, download, now, ids), download, later, moreIds)
         == ImportRows(rows, download, now, ids)
    ensures Reconcile(WithId(download), ImportRows(rows, download, now, ids)).aliases == []
  {
    hide ImportRows, Unique, Reconcile, Target, FreshIds, Refreshed;
    var after := ImportRows(rows, download, now, ids);
    var again := ImportRows(after, download, later, moreIds);
    ImportKeepsConsistent(rows, download, now, ids);
    SecondImportKnowsAll(rows, download, now, ids);
    forall k | 0 <= k < |after| ensures k < |again| && again[k] == after[k] {
      OldRow(after, download, later, moreIds, k);
      SecondImportKeepsRow(rows, download, now, ids, k);
    }
    if |after| < |again| {
      var i, j := AddedRow(after, download, later, moreIds, |after|);
      assert false;
    }
    if |again| < |after| { OldRow(after, download, later, moreIds, |again|); }
  }
}
