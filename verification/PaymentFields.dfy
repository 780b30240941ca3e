/** The fingerprint matching, field by field: which stored rows a download may belong to, and which one it gets. */
module PaymentFields {
  import opened Ascii
  import opened Options
  import opened MonoTypes
  import opened Reconciliation
  import opened Matching

  // ---------- Narrations ----------

  // Every run of blanks replaced by one blank.
  function Collapse(s: string): string {
    if s == "" then ""
    else if !IsSpace(s[0]) then [s[0]] + Collapse(s[1..])
    else if |s| > 1 && IsSpace(s[1]) then Collapse(s[1..])
    else " " + Collapse(s[1..])
  }

  function Joined(words: seq<string>): string {
    if words == [] then "" else if |words| == 1 then words[0] else words[0] + " " + Joined(words[1..])
  }

  predicate IsWord(w: string) {
    w != "" && forall k :: 0 <= k < |w| ==> !IsSpace(w[k])
  }

  lemma {:induction false} WordsAreWords(s: string)
    ensures forall k :: 0 <= k < |Words(s)| ==> IsWord(Words(s)[k])
    ensures Words(s) == [] <==> AllSpace(s)
  {
    if s != "" {
      WordsAreWords(s[1..]);
      assert forall k :: 0 < k < |s| ==> s[k] == s[1..][k - 1];
    }
  }

  lemma {:induction false} WordsSkipBlanks(blanks: string, s: string)
    requires AllSpace(blanks)
    ensures Words(blanks + s) == Words(s)
  {
    if blanks == "" {
      assert blanks + s == s;
    } else {
      WordsSkipBlanks(blanks[1..], s);
      assert (blanks + s)[1..] == blanks[1..] + s;
    }
  }

  lemma {:induction false} WordsDropBlanks(s: string, blanks: string)
    requires AllSpace(blanks)
    ensures Words(s + blanks) == Words(s)
  {
    if s == "" {
      assert s + blanks == blanks + s;
      WordsSkipBlanks(blanks, s);
    } else {
      WordsDropBlanks(s[1..], blanks);
      assert (s + blanks)[1..] == s[1..] + blanks;
      if |s| == 1 { assert s[1..] == ""; }
    }
  }

  // Joined by single blanks, the words of a trimmed text are the text with its runs of blanks collapsed.
  lemma {:induction false} WordsOfTrimmed(s: string)
    requires s == "" || !IsSpace(s[|s| - 1])
    ensures Collapse(s) == (if s != "" && IsSpace(s[0]) then " " else "") + Joined(Words(s))
  {
    hide Joined, IsSpace, IsWord;
    NothingJoined();
    if s != "" {
      var rest := Words(s[1..]);
      WordsOfTrimmed(s[1..]);
      WordsAreWords(s[1..]);
      if |s| == 1 {
        assert s[1..] == "" && AllSpace(s[1..]);
        assert rest == [] && Words(s) == [[s[0]]];
        assert Collapse(s) == [s[0]] + "";
        JoinedOne([s[0]]);
      } else {
        assert !AllSpace(s[1..]) by { assert s[1..][|s| - 2] == s[|s| - 1]; }
        JoinedNext([s[0]], rest);
        JoinedLonger(s[0], rest);
      }
    }
  }

  lemma NothingJoined()
    ensures Joined([]) == "" && Collapse("") == "" && IsSpace(' ')
  {
  }

  lemma {:induction false} JoinedOne(w: string)
    ensures Joined([w]) == w
  {
  }

  lemma {:induction false} JoinedNext(w: string, words: seq<string>)
    requires words != []
    ensures Joined([w] + words) == w + " " + Joined(words)
  {
    assert ([w] + words)[1..] == words;
  }

  lemma {:induction false} JoinedLonger(c: char, words: seq<string>)
    requires words != []
    ensures Joined([[c] + words[0]] + words[1..]) == [c] + Joined(words)
  {
    assert ([[c] + words[0]] + words[1..])[1..] == words[1..];
    if |words| == 1 {
      assert words[1..] == [];
    } else {
      assert [c] + (words[0] + " " + Joined(words[1..])) == [c] + words[0] + " " + Joined(words[1..]);
    }
  }

  // The words of a narration, joined by single blanks, are the trimmed narration with its runs of blanks collapsed.
  lemma {:induction false} WordsJoined(s: string)
    ensures Joined(Words(s)) == Collapse(Trim(s))
  {
    hide Words, Collapse, Trim, AllSpace;
    var before, after := TrimCuts(s);
    WordsSkipBlanks(before, Trim(s) + after);
    WordsDropBlanks(Trim(s), after);
    assert before + Trim(s) + after == before + (Trim(s) + after);
    WordsOfTrimmed(Trim(s));
  }

  lemma {:induction false} WordThen(w: string, rest: string)
    requires IsWord(w)
    ensures Words(w + " " + rest) == [w] + Words(rest)
  {
    var s := w + " " + rest;
    if |w| == 1 {
      assert s[1..] == " " + rest;
      assert (" " + rest)[1..] == rest;
      assert w == [s[0]];
    } else {
      WordThen(w[1..], rest);
      assert s[1..] == w[1..] + " " + rest;
      assert w == [w[0]] + w[1..];
    }
  }

  lemma {:induction false} OneWord(w: string)
    requires IsWord(w)
    ensures Words(w) == [w]
  {
    if |w| > 1 {
      OneWord(w[1..]);
      assert w == [w[0]] + w[1..];
    } else {
      assert w == [w[0]] && w[1..] == "";
    }
  }

  lemma {:induction false} JoinedIsSplit(words: seq<string>)
    requires forall k :: 0 <= k < |words| ==> IsWord(words[k])
    ensures Words(Joined(words)) == words
  {
    hide Words, IsWord;
    if words == [] {
      WordsAreWords("");
    } else if |words| == 1 {
      OneWord(words[0]);
    } else {
      WordThen(words[0], Joined(words[1..]));
      JoinedIsSplit(words[1..]);
    }
  }

  lemma {:induction false} SameWords(a: string, b: string)
    ensures Words(a) == Words(b) <==> Collapse(Trim(a)) == Collapse(Trim(b))
  {
    hide Words, Collapse, Trim, IsWord;
    WordsJoined(a);
    WordsJoined(b);
    WordsAreWords(a);
    WordsAreWords(b);
    JoinedIsSplit(Words(a));
    JoinedIsSplit(Words(b));
  }

  // ---------- Contents ----------

  predicate IsSafe(x: Number) {
    x.Integral? && -9007199254740991 <= x.n <= 9007199254740991
  }

  // Enough is known to recognise the payment: a balance may be missing, but not unreadable.
  predicate Complete(c: Content) {
    && c.date.Some? && IsSafe(c.amount) && (c.balance.Absent? || IsSafe(c.balance))
    && c.kind != "" && exists k :: 0 <= k < |c.narration| && !IsSpace(c.narration[k])
  }

  function CurrencyOf(c: Content): string {
    if c.currency == "" then "NGN" else c.currency
  }

  // The same payment: a missing balance agrees with a missing one only, the type and the currency up to letter case,
  // the narration up to blanks.
  predicate Agree(a: Content, b: Content) {
    && a.date == b.date && a.amount == b.amount && a.balance == b.balance
    && SameUpToCase(a.kind, b.kind) && SameUpToCase(CurrencyOf(a), CurrencyOf(b))
    && Collapse(Trim(a.narration)) == Collapse(Trim(b.narration))
  }

  // Fingerprints exist for complete contents, and are equal exactly when these agree.
  lemma {:induction false} FingerprintsDecide(a: Content, b: Content)
    ensures FingerprintOf(a).Some? <==> Complete(a)
    ensures Complete(a) && Complete(b) ==> (FingerprintOf(a) == FingerprintOf(b) <==> Agree(a, b))
  {
    hide Words, Lower, Upper, Trim, Collapse, SameUpToCase;
    WordsAreWords(a.narration);
    SameWords(a.narration, b.narration);
    CasesDecide(a.kind, b.kind);
    CasesDecide(CurrencyOf(a), CurrencyOf(b));
  }

  // A missing balance and a balance of zero never agree.
  lemma {:induction false} MissingIsNotZero(a: Content, b: Content)
    requires a.balance.Absent? && b.balance == Integral(0)
    ensures FingerprintOf(a).Some? ==> FingerprintOf(a) != FingerprintOf(b)
  {
    hide Words, Lower, Upper, Collapse, Trim, SameUpToCase, Complete;
    FingerprintsDecide(a, b);
    FingerprintsDecide(b, a);
    assert !Agree(a, b);
  }

  // ---------- The matching ----------

  // A download gets a row by its content only when both are complete and agree.
  lemma {:induction false} AliasedAgree(rows: seq<Row>, txs: seq<Download>, i: nat)
    requires DistinctRowIds(rows) && i < |txs| && Aliased(rows, txs, i)
    ensures var row := Target(rows, txs, i).value;
            row in rows && Complete(row.content) && Complete(txs[i].content) && Agree(row.content, txs[i].content)
  {
    hide FingerprintOf, Complete, Agree, Target;
    AliasedTarget(rows, txs, i);
    var row := Target(rows, txs, i).value;
    FingerprintsDecide(row.content, txs[i].content);
    FingerprintsDecide(txs[i].content, row.content);
  }

  // Some download has any rank below that of download i.
  lemma {:induction false} RankReached(rows: seq<Row>, txs: seq<Download>, i: nat, f: Fingerprint, m: nat)
    returns (j: nat)
    requires i <= |txs| && m < Rank(rows, txs, i, f)
    ensures j < i && NeedsMatch(rows, txs[j], f) && Rank(rows, txs, j, f) == m
  {
    hide NeedsMatch;
    if m < Rank(rows, txs, i - 1, f) {
      j := RankReached(rows, txs, i - 1, f, m);
    } else {
      j := i - 1;
    }
  }

  ghost predicate StrictlyOlder(a: Row, b: Row) {
    a.createdAt < b.createdAt || (a.createdAt == b.createdAt && a.id < b.id)
  }

  // When no row knows the ID of a download, each stored row that agrees with it and is older than the row it gets, if
  // it gets any, is the row of another download.
  lemma {:induction false} OlderRowIsTaken(rows: seq<Row>, txs: seq<Download>, i: nat, r: Row) returns (j: nat)
    requires DistinctRowIds(rows) && i < |txs| && r in rows
    requires forall q :: q in rows ==> !Knows(q, ProviderId(txs[i]))
    requires Complete(r.content) && Complete(txs[i].content) && Agree(r.content, txs[i].content)
    requires Target(rows, txs, i).Some? ==> StrictlyOlder(r, Target(rows, txs, i).value)
    ensures j < |txs| && j != i && Target(rows, txs, j) == Some(r)
  {
    hide FingerprintOf, Complete, Agree, Candidates, DistinctRowIds, Knows, Rank;
    OwnerKnows(rows, ProviderId(txs[i]));
    FingerprintsDecide(r.content, txs[i].content);
    FingerprintsDecide(txs[i].content, r.content);
    var f := FingerprintOf(txs[i].content).value;
    var c, k := Candidates(rows, txs, f), Rank(rows, txs, i, f);
    CandidatesMembers(rows, txs, f);
    TargetAtRank(rows, txs, i, f);
    if r.id in Reserved(rows, txs) {
      j := ReservedIsOwned(rows, txs, r);
      assert Target(rows, txs, j) == Owner(rows, ProviderId(txs[j]));
    } else {
      var m: nat :| m < |c| && c[m] == r;
      CandidatesSorted(rows, txs, f);
      if k <= m { NotOlder(c, k, m); }
      j := RankReached(rows, txs, i, f, m);
      TargetAtRank(rows, txs, j, f);
    }
  }

  lemma {:induction false} NotOlder(c: seq<Row>, k: nat, m: nat)
    requires SortedByAge(c) && k <= m < |c|
    ensures !StrictlyOlder(c[m], c[k])
  {
  }

  lemma {:induction false} ReservedIsOwned(rows: seq<Row>, txs: seq<Download>, r: Row) returns (j: nat)
    requires DistinctRowIds(rows) && r in rows && r.id in Reserved(rows, txs)
    ensures j < |txs| && Owner(rows, ProviderId(txs[j])) == Some(r)
  {
    j :| 0 <= j < |txs| && Owner(rows, ProviderId(txs[j])).Some? && Owner(rows, ProviderId(txs[j])).value.id == r.id;
    OwnerKnows(rows, ProviderId(txs[j]));
    SameRow(rows, r, Owner(rows, ProviderId(txs[j])).value);
  }

  // A download under a known ID belongs to the row that knows it; under an unknown ID an incomplete download belongs to
  // no row.
  lemma {:induction false} TargetById(rows: seq<Row>, txs: seq<Download>, i: nat)
    requires DistinctRowIds(rows) && DisjointProviderIds(rows) && i < |txs|
    ensures forall r :: r in rows && Knows(r, ProviderId(txs[i])) ==> Target(rows, txs, i) == Some(r)
    ensures (forall r :: r in rows ==> !Knows(r, ProviderId(txs[i]))) && !Complete(txs[i].content) ==>
              Target(rows, txs, i).None?
  {
    hide FingerprintOf, Complete, DistinctRowIds, DisjointProviderIds, Knows;
    OwnerKnows(rows, ProviderId(txs[i]));
    FingerprintsDecide(txs[i].content, txs[i].content);
    forall r | r in rows && Knows(r, ProviderId(txs[i])) ensures Target(rows, txs, i) == Some(r) {
      OwnerIs(rows, r, ProviderId(txs[i]));
    }
  }

  // The input that tells a missing balance from zero: the download gets a row of its own.
  lemma {:induction false} ZeroBalanceExample(row: Row, tx: Download)
    requires row.content.balance == Integral(0) && tx.content.balance.Absent?
    requires ProviderId(tx) !in ProviderIds(row)
    ensures Target([row], [tx], 0).None?
  {
    hide FingerprintOf, Target, Complete, Collapse, Trim;
    OwnerKnows([row], ProviderId(tx));
    if Aliased([row], [tx], 0) { AliasedAgree([row], [tx], 0); }
  }
}
