/**
 Reconciling one complete account download with the stored rows (`reconcileMonoTransactions`).

 The specification is declarative.  A download with a known provider ID belongs to the row that knows it.
 Among the remaining downloads with a given fingerprint, the k-th belongs to the k-th oldest row with that
 fingerprint which no known ID reserves.  The loop, which keeps a set of used rows and searches for the first
 unused candidate, is proved to compute exactly this.
 */
module Reconciliation {
  import opened Options
  import opened MonoTypes
  import JsMap

  // ---------- Rows of one account ----------

  // The primary key of the table.
  ghost predicate DistinctRowIds(rows: seq<Row>) {
    forall i, j :: 0 <= i < j < |rows| ==> rows[i].id != rows[j].id
  }

  // No provider ID is known to two different rows.
  ghost predicate DisjointProviderIds(rows: seq<Row>) {
    forall a, b, pid :: a in rows && b in rows && Knows(a, pid) && Knows(b, pid) ==> a.id == b.id
  }

  predicate Older(a: Row, b: Row) {
    a.createdAt < b.createdAt || (a.createdAt == b.createdAt && a.id <= b.id)
  }

  function InsertByAge(row: Row, rows: seq<Row>): seq<Row> {
    if rows == [] || Older(row, rows[0]) then [row] + rows
    else [rows[0]] + InsertByAge(row, rows[1..])
  }

  function OldestFirst(rows: seq<Row>): seq<Row> {
    if rows == [] then [] else InsertByAge(rows[0], OldestFirst(rows[1..]))
  }

  ghost predicate SortedByAge(rows: seq<Row>) {
    forall i, j :: 0 <= i < j < |rows| ==> Older(rows[i], rows[j])
  }

  lemma {:induction false} InsertByAgeKeepsRows(row: Row, rows: seq<Row>)
    ensures multiset(InsertByAge(row, rows)) == multiset([row] + rows)
  {
    if rows != [] && !Older(row, rows[0]) {
      InsertByAgeKeepsRows(row, rows[1..]);
      assert [row] + rows == [row] + ([rows[0]] + rows[1..]);
    }
  }

  lemma {:induction false} InsertByAgeSorts(row: Row, rows: seq<Row>)
    requires SortedByAge(rows)
    ensures SortedByAge(InsertByAge(row, rows))
  {
    if rows != [] && !Older(row, rows[0]) {
      InsertByAgeSorts(row, rows[1..]);
      InsertByAgeKeepsRows(row, rows[1..]);
      var rest := InsertByAge(row, rows[1..]);
      forall k | 0 <= k < |rest| ensures Older(rows[0], rest[k]) {
        assert rest[k] in multiset([row] + rows[1..]);
      }
    }
  }

  lemma {:induction false} OldestFirstSorts(rows: seq<Row>)
    ensures SortedByAge(OldestFirst(rows))
    ensures multiset(OldestFirst(rows)) == multiset(rows)
  {
    if rows != [] {
      OldestFirstSorts(rows[1..]);
      InsertByAgeSorts(rows[0], OldestFirst(rows[1..]));
      InsertByAgeKeepsRows(rows[0], OldestFirst(rows[1..]));
      assert rows == [rows[0]] + rows[1..];
    }
  }

  lemma {:induction false} OldestFirstSameRows(rows: seq<Row>)
    ensures |OldestFirst(rows)| == |rows|
    ensures forall r :: r in OldestFirst(rows) <==> r in rows
    ensures DistinctRowIds(rows) ==> DistinctRowIds(OldestFirst(rows))
  {
    OldestFirstSorts(rows);
    var o := OldestFirst(rows);
    assert |multiset(o)| == |o| && |multiset(rows)| == |rows|;
    assert forall r :: r in o <==> r in multiset(o);
    assert forall r :: r in rows <==> r in multiset(rows);
    if DistinctRowIds(rows) {
      forall i, j | 0 <= i < j < |o| ensures o[i].id != o[j].id {
        if o[i].id == o[j].id {
          assert o[i] in rows && o[j] in rows;
          assert o[i] == o[j];
          DuplicateCount(o, i, j);
          AtMostOnce(rows, o[i]);
        }
      }
    }
  }

  lemma {:induction false} DuplicateCount(rows: seq<Row>, i: nat, j: nat)
    requires i < j < |rows| && rows[i] == rows[j]
    ensures multiset(rows)[rows[i]] >= 2
  {
    assert rows == rows[..j] + [rows[j]] + rows[j + 1..];
    assert rows[..j][i] == rows[i];
  }

  lemma {:induction false} AtMostOnce(rows: seq<Row>, r: Row)
    requires DistinctRowIds(rows)
    ensures multiset(rows)[r] <= 1
  {
    if rows != [] {
      AtMostOnce(rows[1..], r);
      assert rows == [rows[0]] + rows[1..];
      forall k | 0 <= k < |rows[1..]| ensures rows[1..][k].id != rows[0].id {
        assert rows[1..][k] == rows[k + 1];
      }
    }
  }

  // The row that knows a provider ID.
  function Owner(rows: seq<Row>, pid: string): Option<Row> {
    if rows == [] then None
    else if pid in ProviderIds(rows[0]) then Some(rows[0])
    else Owner(rows[1..], pid)
  }

  lemma {:induction false} OwnerKnows(rows: seq<Row>, pid: string)
    ensures Owner(rows, pid).Some? ==> Owner(rows, pid).value in rows && Knows(Owner(rows, pid).value, pid)
    ensures Owner(rows, pid).None? ==> forall r :: r in rows ==> !Knows(r, pid)
  {
    if rows != [] {
      assert rows == [rows[0]] + rows[1..];
      OwnerKnows(rows[1..], pid);
    }
  }

  lemma {:induction false} SameRow(rows: seq<Row>, a: Row, b: Row)
    requires DistinctRowIds(rows) && a in rows && b in rows && a.id == b.id
    ensures a == b
  {
  }

  lemma {:induction false} OwnerIs(rows: seq<Row>, row: Row, pid: string)
    requires DistinctRowIds(rows) && DisjointProviderIds(rows)
    requires row in rows && Knows(row, pid)
    ensures Owner(rows, pid) == Some(row)
  {
    OwnerKnows(rows, pid);
    SameRow(rows, row, Owner(rows, pid).value);
  }

  // ---------- The matching ----------

  function WithFingerprint(rows: seq<Row>, f: Fingerprint): seq<Row> {
    if rows == [] then []
    else
      var init := WithFingerprint(rows[..|rows| - 1], f);
      if FingerprintOf(rows[|rows| - 1].content) == Some(f) then init + [rows[|rows| - 1]] else init
  }

  function Unreserved(rows: seq<Row>, used: set<RowId>): seq<Row> {
    if rows == [] then []
    else if rows[0].id in used then Unreserved(rows[1..], used)
    else [rows[0]] + Unreserved(rows[1..], used)
  }

  // Rows that some download names by a known ID, wherever it stands in the download.
  function Reserved(rows: seq<Row>, txs: seq<Download>): set<RowId> {
    set i | 0 <= i < |txs| && Owner(rows, ProviderId(txs[i])).Some? :: Owner(rows, ProviderId(txs[i])).value.id
  }

  // The rows a regenerated ID with fingerprint f may be matched to, oldest first.
  function Candidates(rows: seq<Row>, txs: seq<Download>, f: Fingerprint): seq<Row> {
    Unreserved(WithFingerprint(OldestFirst(rows), f), Reserved(rows, txs))
  }

  predicate NeedsMatch(rows: seq<Row>, tx: Download, f: Fingerprint) {
    Owner(rows, ProviderId(tx)).None? && FingerprintOf(tx.content) == Some(f)
  }

  // How many of the first n downloads have an unknown ID and fingerprint f.
  function Rank(rows: seq<Row>, txs: seq<Download>, n: nat, f: Fingerprint): nat
    requires n <= |txs|
  {
    if n == 0 then 0
    else Rank(rows, txs, n - 1, f) + if NeedsMatch(rows, txs[n - 1], f) then 1 else 0
  }

  // The stored row that download i belongs to, if any.
  function Target(rows: seq<Row>, txs: seq<Download>, i: nat): Option<Row>
    requires i < |txs|
  {
    var owner := Owner(rows, ProviderId(txs[i]));
    if owner.Some? then owner
    else
      match FingerprintOf(txs[i].content)
      case None => None
      case Some(f) =>
        var candidates := Candidates(rows, txs, f);
        var k := Rank(rows, txs, i, f);
        if k < |candidates| then Some(candidates[k]) else None
  }

  // Download i gets its row by fingerprint, so its ID becomes a new alias of that row.
  predicate Aliased(rows: seq<Row>, txs: seq<Download>, i: nat)
    requires i < |txs|
  {
    Owner(rows, ProviderId(txs[i])).None? && Target(rows, txs, i).Some?
  }

  // The alias updates produced by the first n downloads.
  function AliasUpdates(rows: seq<Row>, txs: seq<Download>, n: nat): seq<(RowId, seq<string>)>
    requires n <= |txs|
  {
    if n == 0 then [] else
      var before := AliasUpdates(rows, txs, n - 1);
      if Aliased(rows, txs, n - 1) then
        var row := Target(rows, txs, n - 1).value;
        before + [(row.id, row.aliases + [ProviderId(txs[n - 1])])]
      else before
  }

  function Canonicalised(rows: seq<Row>, txs: seq<Download>, i: nat): Download
    requires i < |txs|
  {
    var target := Target(rows, txs, i);
    if target.Some? then txs[i].(id := target.value.canonical) else txs[i]
  }

  predicate Suppressed(rows: seq<Row>, txs: seq<Download>, i: nat)
    requires i < |txs|
  {
    var target := Target(rows, txs, i);
    target.Some? && target.value.deleted
  }

  // The transactions kept from the first n downloads, keyed by the ID they are stored under.
  function Kept(rows: seq<Row>, txs: seq<Download>, n: nat): seq<(string, Download)>
    requires n <= |txs|
  {
    if n == 0 then [] else
      var before := Kept(rows, txs, n - 1);
      if Suppressed(rows, txs, n - 1) then before
      else
        var tx := Canonicalised(rows, txs, n - 1);
        before + [(ProviderId(tx), tx)]
  }

  // The download with each provider ID once, at its first position and with its last value.
  function Keyed(txs: seq<Download>): (pairs: seq<(string, Download)>) {
    seq(|txs|, i requires 0 <= i < |txs| => (ProviderId(txs[i]), txs[i]))
  }

  function Unique(incoming: seq<Download>): seq<Download> {
    JsMap.Values(JsMap.FromPairs(Keyed(incoming)))
  }

  datatype Reconciled =
    | Reconciled(transactions: seq<Download>, aliases: seq<(RowId, seq<string>)>)
    | ConflictingAliases

  function Reconcile(incoming: seq<Download>, existing: seq<Row>): Reconciled {
    var txs := Unique(incoming);
    Reconciled(JsMap.Values(JsMap.FromPairs(Kept(existing, txs, |txs|))), AliasUpdates(existing, txs, |txs|))
  }

  // ---------- Facts about candidates ----------

  lemma {:induction false} WithFingerprintMembers(rows: seq<Row>, f: Fingerprint)
    requires DistinctRowIds(rows)
    ensures forall r :: r in WithFingerprint(rows, f) <==> r in rows && FingerprintOf(r.content) == Some(f)
    ensures DistinctRowIds(WithFingerprint(rows, f))
  {
    if rows != [] {
      var init, last := rows[..|rows| - 1], rows[|rows| - 1];
      WithFingerprintMembers(init, f);
      assert rows == init + [last];
      assert forall r :: r in rows <==> r in init || r == last;
    }
  }

  lemma {:induction false} UnreservedMembers(rows: seq<Row>, used: set<RowId>)
    requires DistinctRowIds(rows)
    ensures forall r :: r in Unreserved(rows, used) <==> r in rows && r.id !in used
    ensures DistinctRowIds(Unreserved(rows, used))
  {
    if rows != [] {
      UnreservedMembers(rows[1..], used);
      assert rows == [rows[0]] + rows[1..];
      assert forall r :: r in rows <==> r == rows[0] || r in rows[1..];
    }
  }

  // Candidates are exactly the stored rows with the fingerprint that no known ID reserves.
  lemma {:induction false} CandidatesMembers(rows: seq<Row>, txs: seq<Download>, f: Fingerprint)
    requires DistinctRowIds(rows)
    ensures DistinctRowIds(Candidates(rows, txs, f))
    ensures forall r :: r in Candidates(rows, txs, f) <==>
                          r in rows && FingerprintOf(r.content) == Some(f) && r.id !in Reserved(rows, txs)
  {
    OldestFirstSameRows(rows);
    WithFingerprintMembers(OldestFirst(rows), f);
    UnreservedMembers(WithFingerprint(OldestFirst(rows), f), Reserved(rows, txs));
  }

  lemma {:induction false} RankGrows(rows: seq<Row>, txs: seq<Download>, i: nat, j: nat, f: Fingerprint)
    requires i < j <= |txs|
    requires NeedsMatch(rows, txs[i], f)
    ensures Rank(rows, txs, i, f) < Rank(rows, txs, j, f)
  {
    if i + 1 < j {
      RankGrows(rows, txs, i, j - 1, f);
    }
  }

  // What an alias match looks like.
  lemma {:induction false} AliasedTarget(rows: seq<Row>, txs: seq<Download>, i: nat)
    requires DistinctRowIds(rows) && i < |txs| && Aliased(rows, txs, i)
    ensures FingerprintOf(txs[i].content).Some?
    ensures var row := Target(rows, txs, i).value;
            row in rows && FingerprintOf(row.content) == FingerprintOf(txs[i].content) && row.id !in Reserved(rows, txs)
  {
    var f := FingerprintOf(txs[i].content).value;
    CandidatesMembers(rows, txs, f);
    var candidates := Candidates(rows, txs, f);
    assert candidates[Rank(rows, txs, i, f)] in candidates;
  }

  // No row is matched by fingerprint twice in one import.
  lemma {:induction false} AliasedTargetsDiffer(rows: seq<Row>, txs: seq<Download>, i: nat, j: nat)
    requires DistinctRowIds(rows) && i < j < |txs|
    requires Aliased(rows, txs, i) && Aliased(rows, txs, j)
    ensures Target(rows, txs, i).value.id != Target(rows, txs, j).value.id
  {
    AliasedTarget(rows, txs, i);
    AliasedTarget(rows, txs, j);
    var a, b := Target(rows, txs, i).value, Target(rows, txs, j).value;
    if a.id == b.id {
      SameRow(rows, a, b);
      var f := FingerprintOf(txs[i].content).value;
      RankGrows(rows, txs, i, j, f);
      CandidatesMembers(rows, txs, f);
    }
  }

  lemma {:induction false} TargetIsStored(rows: seq<Row>, txs: seq<Download>, i: nat)
    requires DistinctRowIds(rows) && i < |txs| && Target(rows, txs, i).Some?
    ensures Target(rows, txs, i).value in rows
  {
    OwnerKnows(rows, ProviderId(txs[i]));
    if Aliased(rows, txs, i) { AliasedTarget(rows, txs, i); }
  }

  // ---------- The search for the first unused candidate ----------

  // The first row of a group that is not in use.
  function FirstUnused(rows: seq<Row>, used: set<RowId>): Option<Row> {
    if rows == [] then None else if rows[0].id !in used then Some(rows[0]) else FirstUnused(rows[1..], used)
  }

  // Searching all rows is searching the unreserved ones, while the reserved rows stay used.
  lemma {:induction false} FirstUnusedSkipsReserved(rows: seq<Row>, reserved: set<RowId>, used: set<RowId>)
    requires reserved <= used
    ensures FirstUnused(rows, used) == FirstUnused(Unreserved(rows, reserved), used)
  {
    if rows != [] {
      FirstUnusedSkipsReserved(rows[1..], reserved, used);
    }
  }

  lemma {:induction false} FirstUnusedAt(rows: seq<Row>, used: set<RowId>, k: nat)
    requires forall j :: 0 <= j < |rows| ==> (rows[j].id in used <==> j < k)
    ensures FirstUnused(rows, used) == if k < |rows| then Some(rows[k]) else None
  {
    if rows != [] && k > 0 {
      assert rows[0].id in used;
      forall j | 0 <= j < |rows[1..]| ensures rows[1..][j].id in used <==> j < k - 1 {
        assert rows[1..][j] == rows[j + 1];
      }
      FirstUnusedAt(rows[1..], used, k - 1);
    }
  }

  // The used rows after n downloads: every reserved row and every row matched so far.
  ghost function UsedAfter(rows: seq<Row>, txs: seq<Download>, n: nat): set<RowId>
    requires n <= |txs|
  {
    if n == 0 then Reserved(rows, txs)
    else UsedAfter(rows, txs, n - 1)
         + if Aliased(rows, txs, n - 1) then {Target(rows, txs, n - 1).value.id} else {}
  }

  lemma {:induction false} ReservedStaysUsed(rows: seq<Row>, txs: seq<Download>, n: nat)
    requires n <= |txs|
    ensures Reserved(rows, txs) <= UsedAfter(rows, txs, n)
  {
    if n > 0 { ReservedStaysUsed(rows, txs, n - 1); }
  }

  // The row matched to download i is the candidate at its rank, and no other candidate.
  lemma {:induction false} CandidateAtRank(rows: seq<Row>, txs: seq<Download>, i: nat, f: Fingerprint, k: nat)
    requires DistinctRowIds(rows) && i < |txs| && Aliased(rows, txs, i) && k < |Candidates(rows, txs, f)|
    ensures (Candidates(rows, txs, f)[k].id == Target(rows, txs, i).value.id)
       <==> (NeedsMatch(rows, txs[i], f) && k == Rank(rows, txs, i, f))
  {
    var c := Candidates(rows, txs, f);
    CandidatesMembers(rows, txs, f);
    AliasedTarget(rows, txs, i);
    assert c[k] in c;
    if c[k].id == Target(rows, txs, i).value.id { SameRow(rows, c[k], Target(rows, txs, i).value); }
  }

  // Of the candidates for f, exactly the first Rank many are used.
  lemma {:induction false} UsedCandidates(rows: seq<Row>, txs: seq<Download>, n: nat, f: Fingerprint, k: nat)
    requires DistinctRowIds(rows) && n <= |txs| && k < |Candidates(rows, txs, f)|
    ensures Candidates(rows, txs, f)[k].id in UsedAfter(rows, txs, n) <==> k < Rank(rows, txs, n, f)
  {
    if n == 0 {
      CandidatesMembers(rows, txs, f);
      assert Candidates(rows, txs, f)[k] in Candidates(rows, txs, f);
    } else {
      UsedCandidates(rows, txs, n - 1, f, k);
      if Aliased(rows, txs, n - 1) { CandidateAtRank(rows, txs, n - 1, f, k); }
    }
  }

  // The greedy search finds the row that the matching assigns.
  lemma {:induction false} SearchFindsTarget(rows: seq<Row>, txs: seq<Download>, i: nat, f: Fingerprint)
    requires DistinctRowIds(rows) && i < |txs| && NeedsMatch(rows, txs[i], f)
    ensures FirstUnused(WithFingerprint(OldestFirst(rows), f), UsedAfter(rows, txs, i)) == Target(rows, txs, i)
  {
    ReservedStaysUsed(rows, txs, i);
    FirstUnusedSkipsReserved(WithFingerprint(OldestFirst(rows), f), Reserved(rows, txs), UsedAfter(rows, txs, i));
    forall k | 0 <= k < |Candidates(rows, txs, f)|
      ensures Candidates(rows, txs, f)[k].id in UsedAfter(rows, txs, i) <==> k < Rank(rows, txs, i, f)
    {
      UsedCandidates(rows, txs, i, f, k);
    }
    FirstUnusedAt(Candidates(rows, txs, f), UsedAfter(rows, txs, i), Rank(rows, txs, i, f));
  }

  ghost predicate UpdateFrom(rows: seq<Row>, txs: seq<Download>, i: nat, update: (RowId, seq<string>))
    requires i < |txs|
  {
    && Aliased(rows, txs, i)
    && var row := Target(rows, txs, i).value;
       update == (row.id, row.aliases + [ProviderId(txs[i])])
  }

  lemma {:induction false} UpdateOrigin(rows: seq<Row>, txs: seq<Download>, n: nat, k: nat) returns (i: nat)
    requires n <= |txs| && k < |AliasUpdates(rows, txs, n)|
    ensures i < n && UpdateFrom(rows, txs, i, AliasUpdates(rows, txs, n)[k])
  {
    if k < |AliasUpdates(rows, txs, n - 1)| {
      i := UpdateOrigin(rows, txs, n - 1, k);
    } else {
      i := n - 1;
    }
  }

  lemma {:induction false} UpdateFor(rows: seq<Row>, txs: seq<Download>, n: nat, i: nat) returns (k: nat)
    requires i < n <= |txs| && Aliased(rows, txs, i)
    ensures k < |AliasUpdates(rows, txs, n)| && UpdateFrom(rows, txs, i, AliasUpdates(rows, txs, n)[k])
  {
    if i < n - 1 {
      k := UpdateFor(rows, txs, n - 1, i);
    } else {
      k := |AliasUpdates(rows, txs, n - 1)|;
    }
  }

  // No row gains more than one alias in an import.
  lemma {:induction false} OneAliasPerRow(rows: seq<Row>, txs: seq<Download>, n: nat)
    requires DistinctRowIds(rows) && n <= |txs|
    ensures JsMap.DistinctKeys(AliasUpdates(rows, txs, n))
  {
    hide Target, DistinctRowIds;
    if n > 0 {
      OneAliasPerRow(rows, txs, n - 1);
      var before := AliasUpdates(rows, txs, n - 1);
      if Aliased(rows, txs, n - 1) {
        forall k | 0 <= k < |before| ensures before[k].0 != Target(rows, txs, n - 1).value.id {
          var i := UpdateOrigin(rows, txs, n - 1, k);
          AliasedTargetsDiffer(rows, txs, i, n - 1);
        }
      }
    }
  }

  // ---------- The loops ----------

  // What the ID index holds after reading a prefix of the rows.
  ghost predicate Indexes(byProviderId: map<string, Row>, rows: seq<Row>) {
    && (forall pid :: pid in byProviderId ==> byProviderId[pid] in rows && Knows(byProviderId[pid], pid))
    && (forall r, pid :: r in rows && Knows(r, pid) ==> pid in byProviderId && byProviderId[pid].id == r.id)
  }

  ghost predicate Groups(byFingerprint: map<Fingerprint, seq<Row>>, rows: seq<Row>) {
    forall f :: (if f in byFingerprint then byFingerprint[f] else []) == WithFingerprint(rows, f)
  }

  // Adds one row to the ID index; false when another row already knows one of its IDs.
  method IndexRow(byProviderId: map<string, Row>, ghost before: seq<Row>, row: Row)
    returns (ok: bool, index: map<string, Row>)
    requires Indexes(byProviderId, before)
    requires forall r :: r in before ==> r.id != row.id
    ensures ok ==> Indexes(index, before + [row])
    ensures !ok ==> exists r, pid :: r in before && Knows(r, pid) && Knows(row, pid)
  {
    index := byProviderId;
    var ids := ProviderIds(row);
    for i := 0 to |ids|
      invariant forall pid :: pid in index ==>
                  if pid in ids[..i] then index[pid] == row else pid in byProviderId && index[pid] == byProviderId[pid]
      invariant forall pid :: pid in byProviderId || pid in ids[..i] ==> pid in index
      invariant forall pid :: pid in ids[..i] ==> pid !in byProviderId
    {
      var id := ids[i];
      if id in index && index[id].id != row.id {
        assert id in byProviderId;
        assert Knows(byProviderId[id], id) && Knows(row, id);
        return false, index;
      }
      assert ids[..i + 1] == ids[..i] + [id];
      index := index[id := row];
    }
    assert ids[..|ids|] == ids;
    ok := true;
  }

  lemma {:induction false} IndexedOwners(byProviderId: map<string, Row>, ordered: seq<Row>, rows: seq<Row>)
    requires Indexes(byProviderId, ordered)
    requires forall r :: r in ordered <==> r in rows
    requires DistinctRowIds(rows)
    ensures DisjointProviderIds(rows)
    ensures forall pid :: Owner(rows, pid) == if pid in byProviderId then Some(byProviderId[pid]) else None
  {
    forall pid ensures Owner(rows, pid) == if pid in byProviderId then Some(byProviderId[pid]) else None {
      OwnerKnows(rows, pid);
      if pid in byProviderId {
        SameRow(rows, byProviderId[pid], Owner(rows, pid).value);
      }
    }
  }

  // Appends one row to the group of its fingerprint.
  method GroupRow(byFingerprint: map<Fingerprint, seq<Row>>, ghost before: seq<Row>, row: Row)
    returns (groups: map<Fingerprint, seq<Row>>)
    requires Groups(byFingerprint, before)
    ensures Groups(groups, before + [row])
  {
    assert (before + [row])[..|before|] == before;
    groups := byFingerprint;
    var key := FingerprintOf(row.content);
    if key.Some? {
      groups := groups[key.value := (if key.value in groups then groups[key.value] else []) + [row]];
    }
  }

  method BuildIndexes(existing: seq<Row>)
    returns (ok: bool, byProviderId: map<string, Row>, byFingerprint: map<Fingerprint, seq<Row>>)
    requires DistinctRowIds(existing)
    ensures ok <==> DisjointProviderIds(existing)
    ensures ok ==> Groups(byFingerprint, OldestFirst(existing))
    ensures ok ==> forall pid :: Owner(existing, pid) == if pid in byProviderId then Some(byProviderId[pid]) else None
  {
    var ordered := OldestFirst(existing);
    OldestFirstSameRows(existing);
    byProviderId, byFingerprint := map[], map[];
    for i := 0 to |ordered|
      invariant Indexes(byProviderId, ordered[..i])
      invariant Groups(byFingerprint, ordered[..i])
    {
      assert ordered[..i + 1] == ordered[..i] + [ordered[i]];
      ok, byProviderId := IndexRow(byProviderId, ordered[..i], ordered[i]);
      if !ok {
        ghost var r, pid :| r in ordered[..i] && Knows(r, pid) && Knows(ordered[i], pid);
        assert r in existing && ordered[i] in existing;
        return;
      }
      byFingerprint := GroupRow(byFingerprint, ordered[..i], ordered[i]);
    }
    assert ordered[..|ordered|] == ordered;
    ok := true;
    IndexedOwners(byProviderId, ordered, existing);
  }

  // The index still answers for the downloads from position n on.
  ghost predicate Answers(byProviderId: map<string, Row>, rows: seq<Row>, txs: seq<Download>, n: nat) {
    forall k :: n <= k < |txs| ==>
      Owner(rows, ProviderId(txs[k]))
        == if ProviderId(txs[k]) in byProviderId then Some(byProviderId[ProviderId(txs[k])]) else None
  }

  // The row of one download: by known ID, else the oldest unused row with its fingerprint.
  method FindRow(rows: seq<Row>, txs: seq<Download>, i: nat, byProviderId: map<string, Row>,
                 byFingerprint: map<Fingerprint, seq<Row>>, used: set<RowId>)
    returns (row: Option<Row>)
    requires DistinctRowIds(rows) && i < |txs|
    requires Answers(byProviderId, rows, txs, i)
    requires Groups(byFingerprint, OldestFirst(rows))
    requires used == UsedAfter(rows, txs, i)
    ensures row == Target(rows, txs, i)
  {
    var tx := txs[i];
    if ProviderId(tx) in byProviderId { return Some(byProviderId[ProviderId(tx)]); }
    var key := FingerprintOf(tx.content);
    if key.None? { return None; }
    var group := if key.value in byFingerprint then byFingerprint[key.value] else [];
    SearchFindsTarget(rows, txs, i, key.value);
    row := FirstUnused(group, used);
  }

  lemma {:induction false} NothingMatched(rows: seq<Row>, txs: seq<Download>)
    ensures UsedAfter(rows, txs, 0) == Reserved(rows, txs)
    ensures AliasUpdates(rows, txs, 0) == [] && Kept(rows, txs, 0) == []
  {
  }

  // What one more download adds to the declared results.
  lemma {:induction false} MatchStep(rows: seq<Row>, txs: seq<Download>, i: nat)
    requires DistinctRowIds(rows) && i < |txs|
    ensures var target := Target(rows, txs, i);
            var matched := Owner(rows, ProviderId(txs[i])).None? && target.Some?;
            var kept := if target.Some? then txs[i].(id := target.value.canonical) else txs[i];
            && UsedAfter(rows, txs, i + 1) == UsedAfter(rows, txs, i) + (if matched then {target.value.id} else {})
            && AliasUpdates(rows, txs, i + 1)
                 == (if matched then RecordAlias(AliasUpdates(rows, txs, i), target.value, ProviderId(txs[i]))
                     else AliasUpdates(rows, txs, i))
            && Kept(rows, txs, i + 1)
                 == Kept(rows, txs, i)
                    + (if target.Some? && target.value.deleted then [] else [(ProviderId(kept), kept)])
  {
    hide Target, RecordAlias, DistinctRowIds, Owner;
    if Aliased(rows, txs, i) { AliasIsFresh(rows, txs, i); }
  }

  method MatchDownloads(rows: seq<Row>, txs: seq<Download>, index: map<string, Row>,
                        byFingerprint: map<Fingerprint, seq<Row>>, reserved: set<RowId>)
    returns (transactions: seq<(string, Download)>, aliases: JsMap.JsMap<RowId, seq<string>>)
    requires DistinctRowIds(rows) && DistinctIds(txs)
    requires Answers(index, rows, txs, 0)
    requires Groups(byFingerprint, OldestFirst(rows))
    requires reserved == Reserved(rows, txs)
    ensures transactions == Kept(rows, txs, |txs|)
    ensures aliases == AliasUpdates(rows, txs, |txs|)
  {
    hide Target, Aliased, Kept, AliasUpdates, UsedAfter, Owner, Groups, RecordAlias;
    var byProviderId, used := index, reserved;
    aliases, transactions := [], [];
    NothingMatched(rows, txs);
    for i := 0 to |txs|
      invariant used == UsedAfter(rows, txs, i)
      invariant aliases == AliasUpdates(rows, txs, i)
      invariant transactions == Kept(rows, txs, i)
      invariant Answers(byProviderId, rows, txs, i)
    {
      var tx := txs[i];
      var row := FindRow(rows, txs, i, byProviderId, byFingerprint, used);
      MatchStep(rows, txs, i);
      if ProviderId(tx) !in byProviderId && row.Some? {
        used := used + {row.value.id};
        aliases := RecordAlias(aliases, row.value, ProviderId(tx));
        byProviderId := byProviderId[ProviderId(tx) := row.value];
      }
      if !(row.Some? && row.value.deleted) {
        var kept := if row.Some? then tx.(id := row.value.canonical) else tx;
        transactions := transactions + [(ProviderId(kept), kept)];
      }
    }
  }

  method ReconcileMonoTransactions(incoming: seq<Download>, existing: seq<Row>) returns (result: Reconciled)
    requires DistinctRowIds(existing)
    ensures result == if DisjointProviderIds(existing) then Reconcile(incoming, existing) else ConflictingAliases
  {
    var ok, byProviderId, byFingerprint := BuildIndexes(existing);
    if !ok { return ConflictingAliases; }
    var unique := Unique(incoming);
    UniqueIds(incoming);
    // Rows whose IDs come anywhere in the download are not free for matching.
    var used := set i | 0 <= i < |unique| && ProviderId(unique[i]) in byProviderId
                  :: byProviderId[ProviderId(unique[i])].id;
    ReservedIsIndexed(existing, unique, byProviderId, used);
    var transactions, aliases := MatchDownloads(existing, unique, byProviderId, byFingerprint, used);
    result := Reconciled(JsMap.Values(JsMap.FromPairs(transactions)), aliases);
  }

  ghost predicate DistinctIds(txs: seq<Download>) {
    forall i, j :: 0 <= i < j < |txs| ==> ProviderId(txs[i]) != ProviderId(txs[j])
  }

  // Each provider ID of the download appears once, with the last value given for it.
  lemma {:induction false} UniqueIds(incoming: seq<Download>)
    ensures DistinctIds(Unique(incoming))
    ensures forall k :: 0 <= k < |Unique(incoming)| ==>
              JsMap.LastValue(Keyed(incoming), ProviderId(Unique(incoming)[k])) == Some(Unique(incoming)[k])
    ensures forall tx :: tx in incoming ==>
              exists k :: 0 <= k < |Unique(incoming)| && ProviderId(Unique(incoming)[k]) == ProviderId(tx)
  {
    var pairs := Keyed(incoming);
    var m := JsMap.FromPairs(pairs);
    JsMap.FromPairsKeepsLast(pairs);
    forall k | 0 <= k < |m| ensures m[k].0 == ProviderId(m[k].1) && JsMap.LastValue(pairs, m[k].0) == Some(m[k].1) {
      JsMap.GetAt(m, k);
      assert JsMap.Get(m, m[k].0) == JsMap.LastValue(pairs, m[k].0);
      var i := JsMap.LastValueWitness(pairs, m[k].0);
    }
    forall tx | tx in incoming
      ensures exists k :: 0 <= k < |Unique(incoming)| && ProviderId(Unique(incoming)[k]) == ProviderId(tx)
    {
      var i :| 0 <= i < |incoming| && incoming[i] == tx;
      assert pairs[i].0 == ProviderId(tx);
      JsMap.LastValueExists(pairs, i);
      assert JsMap.Get(m, ProviderId(tx)).Some?;
      var k := JsMap.IndexOf(m, ProviderId(tx));
      assert m[k].0 == ProviderId(Unique(incoming)[k]);
    }
  }

  lemma {:induction false} ReservedIsIndexed(rows: seq<Row>, txs: seq<Download>, byProviderId: map<string, Row>,
                                             used: set<RowId>)
    requires forall pid :: Owner(rows, pid) == if pid in byProviderId then Some(byProviderId[pid]) else None
    requires used == set i | 0 <= i < |txs| && ProviderId(txs[i]) in byProviderId :: byProviderId[ProviderId(txs[i])].id
    ensures used == Reserved(rows, txs)
  {
  }

  // Extends the update recorded for a row, or starts one from its stored aliases.
  function RecordAlias(aliases: JsMap.JsMap<RowId, seq<string>>, row: Row, providerId: string)
    : JsMap.JsMap<RowId, seq<string>>
  {
    var known := JsMap.Get(aliases, row.id);
    JsMap.Set(aliases, row.id, (if known.Some? then known.value else row.aliases) + [providerId])
  }

  // A row matched by fingerprint has no alias update yet, so the update starts from the stored aliases.
  lemma {:induction false} AliasIsFresh(rows: seq<Row>, txs: seq<Download>, i: nat)
    requires DistinctRowIds(rows) && i < |txs| && Aliased(rows, txs, i)
    ensures RecordAlias(AliasUpdates(rows, txs, i), Target(rows, txs, i).value, ProviderId(txs[i]))
         == AliasUpdates(rows, txs, i + 1)
  {
    var updates := AliasUpdates(rows, txs, i);
    var k := JsMap.IndexOf(updates, Target(rows, txs, i).value.id);
    if k < |updates| {
      var j := UpdateOrigin(rows, txs, i, k);
      AliasedTargetsDiffer(rows, txs, j, i);
    }
  }
}
