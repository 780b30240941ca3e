/** Theorems about whole histories of one account: imports, user deletions and category edits in any order. */
module ImportHistory {
  import opened Options
  import opened MonoTypes
  import opened Reconciliation
  import opened TransactionImport
  import opened ImportEffect
  import opened ImportProperties

  datatype Event =
    | Import(download: seq<Download>, now: int, ids: seq<RowId>)
    | SoftDelete(id: RowId)
    | Categorise(id: RowId, categories: Categories)

  // New rows get fresh primary keys.
  ghost predicate Possible(rows: seq<Row>, event: Event) {
    event.Import? ==> |event.download| <= |event.ids| && FreshIds(rows, event.ids)
  }

  ghost function Step(rows: seq<Row>, event: Event): seq<Row>
    requires Possible(rows, event)
  {
    match event
    case Import(download, now, ids) =>
      if ImportSucceeds(rows, download) then ImportRows(rows, download, now, ids) else rows
    case SoftDelete(id) =>
      seq(|rows|, k requires 0 <= k < |rows| => if rows[k].id == id then rows[k].(deleted := true) else rows[k])
    case Categorise(id, categories) =>
      seq(|rows|, k requires 0 <= k < |rows| =>
        if rows[k].id == id then rows[k].(categories := categories) else rows[k])
  }

  ghost predicate PossibleRun(rows: seq<Row>, events: seq<Event>)
    decreases |events|
  {
    events == [] || (Possible(rows, events[0]) && PossibleRun(Step(rows, events[0]), events[1..]))
  }

  ghost function Run(rows: seq<Row>, events: seq<Event>): seq<Row>
    requires PossibleRun(rows, events)
    decreases |events|
  {
    if events == [] then rows else Run(Step(rows, events[0]), events[1..])
  }

  function Imports(events: seq<Event>): nat {
    if events == [] then 0 else (if events[0].Import? then 1 else 0) + Imports(events[1..])
  }

  // What no event ever takes away from a row, given how many imports it has been through.
  ghost predicate Continues(before: Row, after: Row, imports: nat) {
    && after.id == before.id && after.createdAt == before.createdAt && after.canonical == before.canonical
    && before.aliases <= after.aliases && |after.aliases| <= |before.aliases| + imports
    && (before.deleted ==> after.deleted && after.content == before.content)
  }

  lemma {:induction false} EditKeepsConsistent(rows: seq<Row>, edited: seq<Row>)
    requires Consistent(rows) && |edited| == |rows|
    requires forall k :: 0 <= k < |rows| ==>
              && edited[k].id == rows[k].id && edited[k].canonical == rows[k].canonical
              && edited[k].aliases == rows[k].aliases
    ensures Consistent(edited)
  {
    forall a, b, pid | a in edited && b in edited && Knows(a, pid) && Knows(b, pid) ensures a.id == b.id {
      var i :| 0 <= i < |edited| && edited[i] == a;
      var j :| 0 <= j < |edited| && edited[j] == b;
      assert Knows(rows[i], pid) && Knows(rows[j], pid);
    }
    forall r | r in edited ensures r.canonical != "" {
      var i :| 0 <= i < |edited| && edited[i] == r;
      assert rows[i] in rows;
    }
  }

  lemma {:induction false} StepEffect(rows: seq<Row>, event: Event)
    requires Consistent(rows) && Possible(rows, event)
    ensures Consistent(Step(rows, event)) && |rows| <= |Step(rows, event)|
    ensures forall k :: 0 <= k < |rows| ==> Continues(rows[k], Step(rows, event)[k], if event.Import? then 1 else 0)
    ensures !event.Categorise? ==> forall k :: 0 <= k < |rows| ==> Step(rows, event)[k].categories == rows[k].categories
  {
    hide Consistent, ImportRows, FreshIds, Downloads, LastFor, Gained, ImportSucceeds;
    var after := Step(rows, event);
    if event.Import? && ImportSucceeds(rows, event.download) {
      ImportKeepsConsistent(rows, event.download, event.now, event.ids);
      ImportGrows(rows, event.download, event.now, event.ids);
      ConsistentKeys(rows);
      forall k | 0 <= k < |rows| ensures Continues(rows[k], after[k], 1) && after[k].categories == rows[k].categories {
        OldRow(rows, event.download, event.now, event.ids, k);
        GainedOnce(rows, Downloads(event.download), |Downloads(event.download)|, rows[k]);
      }
    } else if !event.Import? {
      EditKeepsConsistent(rows, after);
    }
  }

  lemma {:induction false} ImportGrows(rows: seq<Row>, download: seq<Download>, now: int, ids: seq<RowId>)
    requires Consistent(rows) && |download| <= |ids|
    ensures |rows| <= |ImportRows(rows, download, now, ids)|
  {
    if rows != [] { OldRow(rows, download, now, ids, |rows| - 1); }
  }

  // Every history keeps the table consistent: provider IDs of distinct rows stay disjoint, every row keeps its
  // identity, gains at most one alias per import, and a deleted row stays deleted with its content frozen.
  lemma {:induction false} HistoryKeepsIdentity(rows: seq<Row>, events: seq<Event>)
    requires Consistent(rows) && PossibleRun(rows, events)
    ensures Consistent(Run(rows, events)) && |rows| <= |Run(rows, events)|
    ensures forall k :: 0 <= k < |rows| ==> Continues(rows[k], Run(rows, events)[k], Imports(events))
    ensures (forall e :: e in events ==> !e.Categorise?) ==>
              forall k :: 0 <= k < |rows| ==> Run(rows, events)[k].categories == rows[k].categories
    decreases |events|
  {
    hide Consistent, Step, Possible;
    if events != [] {
      var next := Step(rows, events[0]);
      StepEffect(rows, events[0]);
      HistoryKeepsIdentity(next, events[1..]);
      assert forall e :: e in events[1..] ==> e in events;
      forall k | 0 <= k < |rows| ensures Continues(rows[k], Run(rows, events)[k], Imports(events)) {
        assert Continues(rows[k], next[k], if events[0].Import? then 1 else 0);
      }
    }
  }

  // The categories that a row has after a history: those of the last edit of the row, if any.
  function LastCategories(events: seq<Event>, id: RowId, before: Categories): Categories
    decreases |events|
  {
    if events == [] then before
    else
      var last := events[|events| - 1];
      if last.Categorise? && last.id == id then last.categories
      else LastCategories(events[..|events| - 1], id, before)
  }

  lemma {:induction false} LastCategoriesFirst(events: seq<Event>, id: RowId, before: Categories)
    requires events != []
    ensures var after := if events[0].Categorise? && events[0].id == id then events[0].categories else before;
            LastCategories(events, id, before) == LastCategories(events[1..], id, after)
    decreases |events|
  {
    var n := |events| - 1;
    if n > 0 {
      LastCategoriesFirst(events[..n], id, before);
      assert events[..n][1..] == events[1..][..n - 1] && events[1..][n - 1] == events[n];
    } else {
      assert events[..n] == [] && events[1..] == [];
    }
  }

  lemma {:induction false} EditEffect(rows: seq<Row>, event: Event, k: nat)
    requires Consistent(rows) && Possible(rows, event) && k < |rows|
    ensures k < |Step(rows, event)| && Step(rows, event)[k].id == rows[k].id
    ensures Step(rows, event)[k].deleted <==> rows[k].deleted || event == SoftDelete(rows[k].id)
    ensures Step(rows, event)[k].categories
         == if event.Categorise? && event.id == rows[k].id then event.categories else rows[k].categories
  {
    hide Consistent, ImportRows, FreshIds, Downloads, LastFor, Gained, ImportSucceeds;
    if event.Import? && ImportSucceeds(rows, event.download) {
      OldRow(rows, event.download, event.now, event.ids, k);
    }
  }

  // After any history a row is deleted exactly when it was before or some event deletes it, and its categories are
  // those of its last edit.
  lemma {:induction false} HistoryEdits(rows: seq<Row>, events: seq<Event>, k: nat)
    requires Consistent(rows) && PossibleRun(rows, events) && k < |rows|
    ensures k < |Run(rows, events)|
    ensures Run(rows, events)[k].deleted <==> rows[k].deleted || SoftDelete(rows[k].id) in events
    ensures Run(rows, events)[k].categories == LastCategories(events, rows[k].id, rows[k].categories)
    decreases |events|
  {
    hide Consistent, Step, Possible;
    if events != [] {
      StepEffect(rows, events[0]);
      EditEffect(rows, events[0], k);
      HistoryEdits(Step(rows, events[0]), events[1..], k);
      LastCategoriesFirst(events, rows[k].id, rows[k].categories);
      assert events == [events[0]] + events[1..];
    }
  }

  // Starting from no rows, no import of any history reports conflicting aliases: the check that
  // `UpsertTransactions` makes always passes.
  lemma {:induction false} NeverConflicts(events: seq<Event>)
    requires PossibleRun([], events)
    ensures DistinctRowIds(Run([], events)) && DisjointProviderIds(Run([], events))
  {
    HistoryKeepsIdentity([], events);
  }

  // Once a row is deleted, no later download that it knows, under its canonical ID or an alias or by
  // fingerprint, is written again, and no other row ever knows one of its IDs.
  lemma {:induction false} DeletedForever(rows: seq<Row>, events: seq<Event>, k: nat, download: seq<Download>)
    requires Consistent(rows) && PossibleRun(rows, events) && k < |rows| && rows[k].deleted
    ensures var now, txs := Run(rows, events), Downloads(download);
            && k < |now|
            && (forall tx :: tx in Written(now, download) ==> ProviderId(tx) != rows[k].canonical)
            && (forall i :: 0 <= i < |txs| && Target(now, txs, i) == Some(now[k]) ==> Suppressed(now, txs, i))
            && (forall r, pid :: r in now && Knows(r, pid) && Knows(rows[k], pid) ==> r == now[k])
  {
    var now, txs := Run(rows, events), Downloads(download);
    HistoryKeepsIdentity(rows, events);
    assert Continues(rows[k], now[k], Imports(events));
    DeletedRowsStaySuppressed(WithId(download), now);
    assert now[k] in now && now[k].canonical in SuppressedIds(now);
    forall r, pid | r in now && Knows(r, pid) && Knows(rows[k], pid) ensures r == now[k] {
      KnowsContinues(rows[k], now[k], pid);
      SameRow(now, r, now[k]);
    }
  }

  lemma {:induction false} KnowsContinues(before: Row, after: Row, pid: string)
    requires before.canonical == after.canonical && before.aliases <= after.aliases && Knows(before, pid)
    ensures Knows(after, pid)
  {
  }

  // ---------- Regenerated provider IDs ----------

  // How many of the first n downloads have fingerprint f.
  function Occurrences(txs: seq<Download>, n: nat, f: Fingerprint): nat
    requires n <= |txs|
  {
    if n == 0 then 0
    else Occurrences(txs, n - 1, f) + if FingerprintOf(txs[n - 1].content) == Some(f) then 1 else 0
  }

  lemma {:induction false} FirstImport(txs: seq<Download>, n: nat, now: int, ids: seq<RowId>)
    requires DistinctIds(txs) && n <= |txs| <= |ids|
    ensures var rows := UpsertAll([], txs, n, now, ids);
            |rows| == n && forall k :: 0 <= k < n ==> rows[k] == NewRow(txs[k], now, ids[k])
  {
    hide NewRow, UpsertOne, DistinctIds, HasCanonical, ProviderId;
    if n > 0 {
      FirstImport(txs, n - 1, now, ids);
      NoRowYet(ProviderId(txs[n - 1]));
      NotYetInserted([], txs, n - 1, now, ids);
      UpsertOneEffect(UpsertAll([], txs, n - 1, now, ids), txs[n - 1], now, ids[n - 1]);
    }
  }

  lemma {:induction false} NoRowYet(canonical: string)
    ensures !HasCanonical([], canonical)
  {
  }

  lemma {:induction false} KeepsEverything(txs: seq<Download>, n: nat)
    requires n <= |txs|
    ensures Kept([], txs, n) == Keyed(txs)[..n]
    ensures AliasUpdates([], txs, n) == []
  {
    if n > 0 {
      KeepsEverything(txs, n - 1);
      NoCandidates(txs, n - 1);
      assert Keyed(txs)[..n] == Keyed(txs)[..n - 1] + [Keyed(txs)[n - 1]];
    }
  }

  lemma {:induction false} NoCandidates(txs: seq<Download>, i: nat)
    requires i < |txs|
    ensures Target([], txs, i).None?
  {
  }

  // The first import of an account stores every download as its own row.
  lemma {:induction false} FirstImportRows(download: seq<Download>, now: int, ids: seq<RowId>)
    requires |download| <= |ids|
    ensures var rows, txs := ImportRows([], download, now, ids), Downloads(download);
            |rows| == |txs| <= |ids| && forall k :: 0 <= k < |txs| ==> rows[k] == NewRow(txs[k], now, ids[k])
  {
    hide Unique, UpsertAll, NewRow;
    var txs := Downloads(download);
    DownloadsDistinct(download);
    KeepsEverything(txs, |txs|);
    DeletedRowsStaySuppressed(WithId(download), []);
    JsMap.FromDistinctPairs(Keyed(txs));
    assert Keyed(txs)[..|txs|] == Keyed(txs);
    assert Written([], download) == txs;
    FirstImport(txs, |txs|, now, ids);
  }

  lemma {:induction false} StoredOccurrences(rows: seq<Row>, txs: seq<Download>, f: Fingerprint)
    requires |rows| <= |txs|
    requires forall k :: 0 <= k < |rows| ==> rows[k].content == StoredContent(txs[k].content)
    requires forall tx :: tx in txs ==> FingerprintOf(tx.content).Some?
    ensures |WithFingerprint(rows, f)| == Occurrences(txs, |rows|, f)
  {
    hide FingerprintOf, StoredContent;
    if rows != [] {
      var init := rows[..|rows| - 1];
      StoredOccurrences(init, txs, f);
      assert txs[|init|] in txs;
      StoringKeepsFingerprint(txs[|init|].content);
    }
  }

  ghost function Ids(rows: seq<Row>): set<RowId> {
    set r | r in rows :: r.id
  }

  lemma {:induction false} CountIds(rows: seq<Row>)
    requires DistinctRowIds(rows)
    ensures |Ids(rows)| == |rows|
  {
    if rows != [] {
      var init, last := rows[..|rows| - 1], rows[|rows| - 1];
      CountIds(init);
      assert rows == init + [last];
      assert Ids(rows) == Ids(init) + {last.id};
    }
  }

  lemma {:induction false} SameIds(a: seq<Row>, b: seq<Row>)
    requires DistinctRowIds(a) && DistinctRowIds(b) && forall r :: r in a <==> r in b
    ensures |a| == |b|
  {
    CountIds(a);
    CountIds(b);
    assert Ids(a) == Ids(b);
  }

  // With no known ID in the download, all rows with the fingerprint are candidates.
  lemma {:induction false} AllAreCandidates(rows: seq<Row>, txs: seq<Download>, f: Fingerprint)
    requires DistinctRowIds(rows)
    requires forall i :: 0 <= i < |txs| ==> Owner(rows, ProviderId(txs[i])).None?
    ensures |Candidates(rows, txs, f)| == |WithFingerprint(rows, f)|
  {
    CandidatesMembers(rows, txs, f);
    WithFingerprintMembers(rows, f);
    assert Reserved(rows, txs) == {};
    SameIds(Candidates(rows, txs, f), WithFingerprint(rows, f));
  }

  lemma {:induction false} RankIsOccurrences(rows: seq<Row>, txs: seq<Download>, n: nat, f: Fingerprint)
    requires n <= |txs| && forall i :: 0 <= i < |txs| ==> Owner(rows, ProviderId(txs[i])).None?
    ensures Rank(rows, txs, n, f) == Occurrences(txs, n, f)
  {
    hide FingerprintOf;
    if n > 0 { RankIsOccurrences(rows, txs, n - 1, f); }
  }

  ghost predicate CompleteIdentities(txs: seq<Download>) {
    forall tx :: tx in txs ==> FingerprintOf(tx.content).Some?
  }

  // The IDs of the second download are all new, and no payment occurs in it more often than in the first.
  ghost predicate Regenerated(first: seq<Download>, second: seq<Download>) {
    && CompleteIdentities(first) && CompleteIdentities(second)
    && (forall a, b :: a in first && b in second ==> ProviderId(a) != ProviderId(b))
    && (forall f :: Occurrences(second, |second|, f) <= Occurrences(first, |first|, f))
  }

  // When the bank regenerates every transaction ID and sends the same payments again, in any order, with any
  // number of identical occurrences, no payment is stored twice: every download is matched to a row.
  lemma {:induction false} RegeneratedIdsAddNothing(first: seq<Download>, now: int, ids: seq<RowId>,
                                 second: seq<Download>, later: int, moreIds: seq<RowId>)
    requires |first| <= |ids| && FreshIds([], ids) && |second| <= |moreIds|
    requires Regenerated(Downloads(first), Downloads(second))
    ensures |ImportRows(ImportRows([], first, now, ids), second, later, moreIds)| == |ImportRows([], first, now, ids)|
  {
    hide ImportRows, Unique, Target, Aliased;
    var rows, txs := ImportRows([], first, now, ids), Downloads(second);
    ImportKeepsConsistent([], first, now, ids);
    FirstImportRows(first, now, ids);
    forall i | 0 <= i < |txs| ensures Target(rows, txs, i).Some? {
      RegeneratedIsMatched(rows, Downloads(first), txs, i);
    }
    ImportGrows(rows, second, later, moreIds);
    if |rows| < |ImportRows(rows, second, later, moreIds)| {
      var i, j := AddedRow(rows, second, later, moreIds, |rows|);
      assert false;
    }
  }

  lemma {:induction false} RegeneratedIsMatched(rows: seq<Row>, first: seq<Download>, txs: seq<Download>, i: nat)
    requires Consistent(rows) && Regenerated(first, txs) && i < |txs| && |rows| == |first|
    requires forall k :: 0 <= k < |rows| ==> rows[k] == NewRow(first[k], rows[k].createdAt, rows[k].id)
    ensures Target(rows, txs, i).Some?
  {
    forall j | 0 <= j < |txs| ensures Owner(rows, ProviderId(txs[j])).None? {
      NothingKnown(rows, first, txs, j);
    }
    assert txs[i] in txs;
    var f := FingerprintOf(txs[i].content).value;
    RankGrows(rows, txs, i, |txs|, f);
    RankIsOccurrences(rows, txs, |txs|, f);
    AllAreCandidates(rows, txs, f);
    StoredOccurrences(rows, first, f);
  }

  lemma {:induction false} UnknownToFirst(rows: seq<Row>, first: seq<Download>, txs: seq<Download>, i: nat, k: nat)
    requires Regenerated(first, txs) && |rows| == |first| && i < |txs| && k < |rows|
    requires rows[k] == NewRow(first[k], rows[k].createdAt, rows[k].id)
    ensures !Knows(rows[k], ProviderId(txs[i]))
  {
  }

  lemma {:induction false} NothingKnown(rows: seq<Row>, first: seq<Download>, txs: seq<Download>, i: nat)
    requires Regenerated(first, txs) && |rows| == |first| && i < |txs|
    requires forall k :: 0 <= k < |rows| ==> rows[k] == NewRow(first[k], rows[k].createdAt, rows[k].id)
    ensures Owner(rows, ProviderId(txs[i])).None?
  {
    OwnerKnows(rows, ProviderId(txs[i]));
    forall k | 0 <= k < |rows| ensures !Knows(rows[k], ProviderId(txs[i])) {
      UnknownToFirst(rows, first, txs, i, k);
    }
  }
}
