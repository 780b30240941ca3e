# Verification of the finance backend's algorithms and protocols

A Dafny model of the parts of the backend that hold real algorithms, state and concurrency, with proofs of what they are
for. `dafny verify dfyconfig.toml` checks everything.

## What is modelled

**Importing bank transactions** (`MonoTypes`, `JsMap`, `Reconciliation`, `Matching`, `PaymentFields`,
`TransactionImport`, `ImportEffect`, `ImportProperties`, `ImportedRows`, `ImportHistory`). The bank's provider may
regenerate the ID of a payment, so one download is matched to the stored rows first by ID and then by a fingerprint of
its content. `Reconciliation` states declaratively which row each download belongs to (`Target`: the owner of its ID, or
the n-th oldest row of its fingerprint that no ID of the download reserves) and proves that the loop with its mutable
indexes computes exactly that. `Matching` shows that the greedy choice is maximum, takes the oldest rows, and does not
depend on page order. `PaymentFields` and `ImportedRows` say the same without fingerprints: which fields of a row and a
download must agree, and what every column of the table holds after an import. `TransactionImport` is the repository
with its alias updates and batched upserts. The other modules follow the table through one import, two equal imports,
and any history of imports, user deletions and category edits. JavaScript's `new Map(pairs)` (first position, last value
of a repeated key), the order by `(createdAt, id)`, the truncation to safe integers, and the missing fingerprint that
never matches are all kept.

**Synchronising windows** (`SyncWindow`, `Cooldown`, `FinanceQueue`). One run of the sync with its forward part,
backfill, forced restart, freshness cache and failures; every interleaving of runs that work from entities loaded at
different times; the per-user promise chain; and the cooldown report that users see. What a run downloads and writes is
also stated instant by instant (`AsksFor`, `IsNewWindow`). One property is not met by the code in full: a forced run
restarts at 1 January, so when both boundaries lie before that instant the written window claims instants that were
never downloaded. `GapCondition` proves that this is the only case and `GapExample` shows it.

**Edit distance and label lookup** (`EditDistance`, `ClosestLabel`). The one-row table computes the recursive edit
distance, which is a metric and the length of a shortest path of single edits; the lookup corrects a label exactly when
one candidate is strictly nearest within the threshold.

**PDF reports** (`PageLayout`, `ReportPages`, `ReportPlaces`, `PdfText`, `Decimal`, `PdfDocument`, `PdfReader`). Page
breaking draws each row once, in order, inside the page, on the fewest pages, at stated points and in stated characters.
The writer is connected to a reader that starts at the end of the file and follows `startxref`, the cross-reference
table, the references and the stream lengths as sections 7.5.4 and 7.5.5 of ISO 32000-1 prescribe, and gets back the
commands of every page; text is read back as section 7.3.4.2 prescribes.

**Sessions and tokens** (`Sessions`, `TokenLifecycle`, `TokenCache`, `TokenExchange`, `TokenRace`). Durable revocation
records, a Redis cache that expires, forgets or fails, token rotation, and what an access or refresh token must pass, as
methods on a store and as runs of a state machine, with interleaved refreshes.

**Legacy categorisation rules** (`SubCategories`, `LegacyRules`, `LegacyMerge`, `RuleKeys`, `RuleMatching`,
`RuleTables`, `RuleEffect`, `RuleExamples`). The merge that runs with the seeds, what its keys tell apart, which
transactions a rule classifies, and exactly when the merge leaves those classifications as they were.

**Smaller cores.** The incremental naive Bayes classifier (`NaiveBayes`, `Posteriors`), the CSV export (`Csv`, read back
by a parser for section 2 of RFC 4180) and the external IDs of statement rows (`ExternalIds`).

`Options`, `Ascii`, `Integers`, `Sequences` and `Substrings` hold shared definitions.

Findings about the code:

- The filter of suppressed IDs in `upsertTransactionsWithRepository` removes nothing, because reconciliation has already
  dropped every download of a deleted row (`DeletedRowsStaySuppressed`).
- "Conflicting Mono transaction aliases" cannot be thrown for a table filled by imports (`NeverConflicts`).
- The merge can change classifications: its key trims and lower-cases the match value, which matching does not, it respells
  sub-categories, which `applyRules` assigns as they are, and it lends the priority of inactive rules to the survivor. Next
  to any rules of other keys, a group may be replaced by its survivor exactly when, for every text, the survivor matches
  whatever an active rule of the group matches; an active rule of the survivor's priority matches whatever an active
  survivor matches; and the matching active rules of that priority have the survivor's category and sub-category
  (`GroupInContext`). Without patterns this is a check on the rows (`RowsDecide`): the oldest rule matches the value of each
  active rule, an active rule with its lower-cased value holds the least priority, and the active rules at that priority
  have the survivor's category and sub-category. When every group passes, so does the whole table
  (`MergeKeepsClassification`); `MergeInContext` is exact for the table. Groups that fail: a trailing blank
  (`BlankExample`), the letter case of a pattern (`PatternExample`), a respelled sub-category (`SpellingExample`) and an
  inactive rule of least priority (`InactiveLeadExample`). `UnlikeButHarmless` has two rules that classify differently and
  may still be merged. The seed list holds no value with surrounding blanks and one pattern, and the admin service trims
  keywords and writes no pattern, so rows with such values can only be older than these writers.
- A key tells rules apart exactly up to the place of the colon between category and sub-category (`EqualKeys`,
  `EqualKeysSameParts`). Categories without a colon are always told apart (`ColonFreeCategories`), and every writer of
  system rules stores an `AccountCategoryType` (`SystemRuleKeys`), so the collision of `ColonExample` cannot be stored.
- A row text that holds one of the two page-number marks is rewritten when the marks are replaced; the report shows the
  rows as drawn exactly when no drawn text holds a mark (`ReportShowsRows`, `MarkExample`).
- External IDs can collide only through a reference that itself reads like the generated ID of another row;
  `DistinctIffNoClash` gives the exact condition and `ClashExample` an instance.
- For a single access token `validate` reads only the cache. Over every run, the cache turns away a token whose session
  lives exactly when Redis answers and the last entry written for it is still there and has not run out
  (`RevokedAccessToken`); revoking the session does not depend on Redis.
- Two refreshes exchange the same token only if both were presented before either revoked it
  (`ExchangedTwiceOnlyInRace`). A token that is never presented while another refresh of it is under way is exchanged at
  most once (`NoOverlapNoRace`), and any such overlap can end in two exchanges unless the session ends before it is read
  (`RaceCanEnd`, `OverlapCanRace`). `RaceExample` is such a run.

## Model

| member | source | states |
|---|---|---|
| MonoTypes.StoringKeepsFingerprint | src/mono/transaction-identity.ts:4-40 | a stored transaction (default currency, unreadable balance made null) has the fingerprint of its download, so later downloads can match it |
| PaymentFields.WordsJoined | src/mono/transaction-identity.ts:39 | the words of a narration joined by single blanks are the trimmed narration with its runs of blanks collapsed |
| PaymentFields.FingerprintsDecide | src/mono/transaction-identity.ts:4-40 | a fingerprint exists iff date, amount, type and narration are given and numbers are safe integers, and two are equal iff date, amount and balance are equal (a missing balance only to a missing one), type and currency (default NGN) up to letter case, and narration up to blanks |
| PaymentFields.ZeroBalanceExample | src/mono/transaction-identity.ts:3-22 | a download without balance does not get a row with balance 0 |
| PaymentFields.AliasedAgree | src/mono/transaction-identity.ts:85-99 | a download matched by content agrees with its row in these fields, and both are complete |
| PaymentFields.OlderRowIsTaken | src/mono/transaction-identity.ts:50-99 | when no row knows the ID of a download, every agreeing row older than the one it gets, or any agreeing row if it gets none, is the row of another download |
| PaymentFields.TargetById | src/mono/transaction-identity.ts:79-92 | a download under a known ID belongs to the row that knows it; an incomplete one under an unknown ID belongs to none |
| JsMap.FromPairsKeepsLast | src/mono/transaction-identity.ts:71-73 | a map built from pairs holds each key once, with its last value, and nothing else |
| JsMap.FromPairsKeepsOrder | src/mono/transaction-identity.ts:71-73 | its keys stand in the order in which the pairs first name them |
| Reconciliation.BuildIndexes | src/mono/transaction-identity.ts:50-70 | the two index maps hold exactly the owner of each provider ID and, per fingerprint, its rows from the oldest to the newest; it fails iff two rows share a provider ID |
| Reconciliation.MatchDownloads | src/mono/transaction-identity.ts:78-105 | the loop over the mutable `used`, `aliases`, `byProviderId` and `transactions` yields the declared alias updates and kept transactions |
| Reconciliation.ReconcileMonoTransactions | src/mono/transaction-identity.ts:43-112 | reports a conflict iff two rows share a provider ID, and otherwise returns the reconciliation defined by ownership and rank |
| Reconciliation.SearchFindsTarget | src/mono/transaction-identity.ts:85-92 | the first row not in the mutable set of used rows is the candidate whose rank is the number of earlier unknown downloads with that fingerprint |
| Reconciliation.UniqueIds | src/mono/transaction-identity.ts:71-73 | every provider ID of a download survives exactly once, with its last transaction |
| Reconciliation.OneAliasPerRow | src/mono/transaction-identity.ts:91-99 | a row appears in at most one alias update |
| Matching.MatchingTakesOldest | src/mono/transaction-identity.ts:50-105 | per fingerprint the matched rows are the oldest unreserved ones, and their number is the minimum of unknown incoming IDs and unreserved rows |
| Matching.CandidatesSorted | src/mono/transaction-identity.ts:52-57 | candidates come in the order of creation time, then ID |
| Matching.MatchingIsMaximum | src/mono/transaction-identity.ts:74-105 | no assignment of unknown downloads to distinct unreserved rows with equal fingerprint matches more of them |
| Matching.PageOrderIsIrrelevant | src/mono/transaction-identity.ts:71-105 | two raw page lists with the same transactions, in any order and with any consistent overlap, give the same rows a new alias |
| TransactionImport.TransactionRepository.InsertInBatches | src/mono/mono.service.ts:999-1019 | batches of 500 leave the rows that one statement for all values would leave |
| TransactionImport.TransactionRepository.UpsertTransactions | src/mono/mono.service.ts:892-1020 | fails iff provider IDs conflict or the database refuses a transaction to write (an amount or balance outside 64 bits or fractional, or no valid date), and then changes nothing; otherwise leaves the rows of the declared import |
| TransactionImport.ImportableIdsDiffer | src/mono/mono.service.ts:930-933 | the imported transactions have distinct IDs, so no statement touches a row twice |
| ImportEffect.KeptForRow | src/mono/transaction-identity.ts:102-109 | what is returned under a row's canonical ID is the last download that belongs to the row, and nothing for a deleted row |
| ImportEffect.DeletedRowsStaySuppressed | src/mono/mono.service.ts:918-933 | no returned transaction carries a deleted row's canonical ID, so the suppressed-ID filter removes nothing |
| ImportProperties.OldRow | src/mono/mono.service.ts:909-1019 | the exact row after an import: at most one alias more, content of its last download unless deleted, categories untouched |
| ImportProperties.AddedRow | src/mono/mono.service.ts:930-1019 | every added row is a new row for a download that no row knew and no fingerprint matched |
| ImportProperties.DownloadIsAdded | src/mono/mono.service.ts:930-1019 | every such download gets a row of its own |
| ImportedRows.OldRowKeeps | src/mono/mono.service.ts:909-1019 | a stored row keeps its key, age, canonical ID, categories and deletion mark, and its content when it is deleted |
| ImportedRows.OldRowAliases | src/mono/mono.service.ts:909-928 | a stored row gains no alias, or the ID of one download that no row knew and that agrees with it field by field |
| ImportedRows.OldRowContent | src/mono/mono.service.ts:930-1019 | the content columns of a row that is not deleted become those of a download when one carries an ID the row knows, and otherwise stay or become those of a download |
| ImportedRows.AddedRowHolds | src/mono/mono.service.ts:930-1019 | an added row holds one download, column by column, under its ID, with the suggested categories; no row knew that ID |
| ImportedRows.EveryIdIsKnown | src/mono/mono.service.ts:892-1020 | after an import some row knows every ID that a download carries |
| ImportedRows.UnlikeDownloadIsAdded | src/mono/mono.service.ts:930-1019 | a download under an unknown ID that agrees with no stored row is added |
| ImportProperties.ImportKeepsConsistent | src/mono/mono.service.ts:909-1019 | an import keeps row IDs distinct and the provider IDs of distinct rows disjoint |
| ImportProperties.SecondImportKnowsAll | src/mono/mono.service.ts:909-1019 | repeating a download finds every ID known and proposes no alias |
| ImportProperties.SameCanonicalIds | src/mono/transaction-identity.ts:102-109 | repeating a download returns the same canonical IDs in the same order |
| ImportProperties.ImportTwice | src/mono/mono.service.ts:892-1020 | importing a download twice leaves exactly the table of importing it once |
| ImportHistory.HistoryKeepsIdentity | src/mono/mono.service.ts:892-1020 | over any history rows keep their identity, gain at most one alias per import, and deleted rows stay deleted and frozen |
| ImportHistory.HistoryEdits | src/mono/mono.service.ts:1003-1016 | after any history a row is deleted iff it was or some event deletes it, and its categories are those of its last edit: imports touch neither |
| ImportHistory.NeverConflicts | src/mono/transaction-identity.ts:58-70 | from an empty table, no history makes two rows share a provider ID, so the conflict error is never thrown |
| ImportHistory.DeletedForever | src/mono/transaction-identity.ts:84-105 | after any history no download known to a deleted row is written, and no other row ever knows its IDs |
| ImportHistory.FirstImportRows | src/mono/mono.service.ts:892-1020 | the first import stores every distinct download as its own row, identical occurrences included |
| ImportHistory.RegeneratedIdsAddNothing | src/mono/transaction-identity.ts:71-105 | when every ID of a download is regenerated and no payment occurs more often than before, no row is added |
| SyncWindow.SyncTransactionsForAccount | src/mono/mono.service.ts:703-784 | skips iff fresh and no backfill is needed; a run that throws writes neither boundary; otherwise exactly the instants asked for are downloaded and both boundaries are set accordingly |
| SyncWindow.FetchesAskedFor | src/mono/mono.service.ts:711-767 | instant by instant: a run that is not recent downloads the year so far when forced or first and otherwise what followed the last sync; a requested start before the window adds all between them; nothing else; and the new boundaries in the same terms |
| SyncWindow.FirstRun | src/mono/mono.service.ts:722-735 | the first run of an account downloads exactly [1 January, now) and claims it |
| SyncWindow.RunCovers | src/mono/mono.service.ts:722-784 | a run from covered boundaries writes covered boundaries, unless it is forced with both boundaries before 1 January |
| SyncWindow.GapCondition | src/mono/mono.service.ts:722-784 | with nothing else downloaded, the written window is covered iff the run is not such a forced run |
| SyncWindow.GapExample | src/mono/mono.service.ts:723-767 | a forced run in June 2026 after one in June 2025 claims the months between, which were never downloaded |
| SyncInterleaving.WrittenWindowsAreDownloaded | src/mono/mono.service.ts:703-784 | in every interleaving of runs on stale entities, every window ever written lies inside what was downloaded |
| SyncInterleaving.RunAlone | src/mono/mono.service.ts:703-784 | from any reachable state a run may begin, and when nothing interrupts it, it downloads and writes what the method does |
| SyncInterleaving.RunThrows | src/mono/mono.service.ts:732-757 | a run whose m-th download throws keeps what it downloaded before, writes no boundary, and is over |
| FinanceQueue.OneRunPerUser | src/mono/mono.service.ts:597-630 | two running syncs of one user are the same sync |
| FinanceQueue.RunsStartInCallOrder | src/mono/mono.service.ts:598-599 | syncs of one user start in call order, whether earlier ones succeed or fail |
| FinanceQueue.StartsWhenEarlierSettled | src/mono/mono.service.ts:598-599 | a waiting sync may start iff every earlier sync of its user has settled, whatever its outcome |
| FinanceQueue.AbsentMeansSettled | src/mono/mono.service.ts:630-635 | a user without a map entry has no unsettled sync, so deleting the entry is safe |
| FinanceQueue.MapEndsEmpty | src/mono/mono.service.ts:631-635 | once all calls are over the map is empty |
| FinanceQueue.NeverStuck | src/mono/mono.service.ts:597-636 | while some call is not over, some step other than a new call is possible |
| Cooldown.ActiveIffFresh | src/mono/transaction-cooldown.ts:27-42 | an account is shown as active iff a normal run that may reuse data counts it as fresh; its seconds lie in 0..3600 |
| Cooldown.TimingIs | src/mono/transaction-cooldown.ts:27-42 | an account may be refreshed an hour after its last known sync, shows the fewest whole seconds until then, and is active until then |
| Cooldown.SummaryIs | src/mono/transaction-cooldown.ts:44-56 | the summary names the earliest such instant iff all last syncs are known, and is active iff all accounts are |
| Cooldown.SummaryIsMinimum | src/mono/transaction-cooldown.ts:44-56 | the summary is active iff its seconds are positive, and they are the least of all accounts when all are valid and 0 otherwise |
| EditDistance.Levenshtein | src/admin/services/admin-categorization-rules.service.ts:373-389 | the in-place one-row table computes the recursive edit distance |
| EditDistance.LengthBounds | src/admin/services/admin-categorization-rules.service.ts:373-389 | the distance lies between the length difference and the longer length |
| EditDistance.Symmetric | src/admin/services/admin-categorization-rules.service.ts:373-389 | the distance is symmetric |
| EditDistance.ZeroIffEqual | src/admin/services/admin-categorization-rules.service.ts:373-389 | the distance is zero iff the strings are equal |
| EditDistance.Triangle | src/admin/services/admin-categorization-rules.service.ts:373-389 | the triangle inequality |
| EditDistance.PathIsLong | src/admin/services/admin-categorization-rules.service.ts:373-389 | every chain of single insertions, deletions and replacements between two strings is at least as long as the distance |
| EditDistance.ShortestPath | src/admin/services/admin-categorization-rules.service.ts:373-389 | some chain of single edits has exactly that length |
| ClosestLabel.CorrectsToUniqueNearest | src/admin/services/admin-categorization-rules.service.ts:344-363 | without an exact match, a candidate is returned iff it occurs once, lies within the threshold, and every other candidate is strictly farther |
| ClosestLabel.CorrectionIgnoresOrder | src/admin/services/admin-categorization-rules.service.ts:346-363 | the correction is the same for every order of the candidates |
| ClosestLabel.ExactMatchWins | src/admin/services/admin-categorization-rules.service.ts:340-343 | an exact match is returned whatever else is near, and it is the first one |
| PageLayout.BuildPages | src/common/reports/simple-pdf-report.service.ts:42-91 | the loop over `y` and the current page draws exactly the greedy split of the rows with numbered footers, and both marks are replaced in every row text |
| PageLayout.PaginateSplits | src/common/reports/simple-pdf-report.service.ts:65-75 | the greedy split keeps every row once and in order, and every page above the bottom margin |
| PageLayout.PaginateIsMinimal | src/common/reports/simple-pdf-report.service.ts:65-75 | no in-order split with the same page heights has fewer pages |
| PageLayout.RowStaysOnPage | src/common/reports/simple-pdf-report.service.ts:65-75 | a drawn row starts at or below the top of its page and ends above the bottom margin |
| PageLayout.RowsDoNotOverlap | src/common/reports/simple-pdf-report.service.ts:183-258 | of two rows painted on a page the later lies wholly below the earlier |
| ReportPages.ReportIsComplete | src/common/reports/simple-pdf-report.service.ts:42-91 | the finished pages draw each row of the report once and in order, footers read 1 to n of n, and n is the least possible |
| ReportPages.ReportShowsRows | src/common/reports/simple-pdf-report.service.ts:84-90 | readers see the rows as drawn iff no drawn text holds one of the two marks |
| ReportPages.MarkExample | src/common/reports/simple-pdf-report.service.ts:84-90 | a row whose text is a mark is not shown as it is |
| ReportPlaces.BreaksAt | src/common/reports/simple-pdf-report.service.ts:65-75 | a page goes on exactly while the next row, of height 28, 10 or 22, ends at 62 or above |
| ReportPlaces.RowStandsAt | src/common/reports/simple-pdf-report.service.ts:42-76 | row i of a page stands at 612 or 658 less the heights of the rows before it |
| ReportPlaces.PageFrame | src/common/reports/simple-pdf-report.service.ts:52-82 | each page has its header, title and footer, the first its summary, and an empty report its notice |
| ReportPlaces.RowIsShown | src/common/reports/simple-pdf-report.service.ts:177-260 | each text of a row is drawn as itself, character by character, cut to its length with a full stop |
| ReportPlaces.MarksFilled | src/common/reports/simple-pdf-report.service.ts:84-90 | the mark of the total becomes the number of pages, that of the page its number |
| PdfText.ThreePassesAreOne | src/common/reports/simple-pdf-report.service.ts:637-642 | the three global replacements escape every special character exactly once |
| PdfText.TextRoundTrip | src/common/reports/simple-pdf-report.service.ts:633-642 | a reader of literal strings gets back the printable text, whatever the text and whatever follows it |
| PdfDocument.RenderPdf | src/common/reports/simple-pdf-report.service.ts:446-511 | the file is the declared document of the pages' content streams |
| PdfDocument.LinesAreCommands | src/common/reports/simple-pdf-report.service.ts:464 | cutting a content stream at its line ends gives its commands iff there are any and none holds a line end |
| PdfDocument.PageText | src/common/reports/simple-pdf-report.service.ts:469-480 | a page object is written as these letters |
| PdfReader.EntryIsTwentyBytes | src/common/reports/simple-pdf-report.service.ts:497-503 | every cross-reference entry is 20 bytes long and its ten digits read as the object's offset |
| PdfReader.StartXrefIsRight | src/common/reports/simple-pdf-report.service.ts:496-508 | the number found behind `startxref` is the byte at which the cross-reference table starts |
| PdfReader.EntryLeadsToObject | src/common/reports/simple-pdf-report.service.ts:487-508 | every entry leads to the byte where "k 0 obj" of its own object starts |
| PdfReader.StreamIsRead | src/common/reports/simple-pdf-report.service.ts:463-468 | the bytes counted by `/Length` are the content stream and `endstream` follows them |
| PdfReader.PageIsRead | src/common/reports/simple-pdf-report.service.ts:469-480 | a page refers to the page tree, to existing fonts and to its own content stream |
| PdfReader.WrittenFileIsReadable | src/common/reports/simple-pdf-report.service.ts:446-511 | opening the written file from its end yields the content streams of its pages in order |
| PdfReader.CommandsAreRead | src/common/reports/simple-pdf-report.service.ts:446-511 | opening the written file and cutting its streams at line ends gives the commands of all pages iff every page has commands and none holds a line end |
| Sessions.AuthStore.RevokeTokenWithTtl | src/auth/services/session.service.ts:89-105 | marks the durable record and, if Redis works, lists the token until its time is over |
| Sessions.RevokedTokens | src/auth/services/session.service.ts:89-105 | record by record and entry by entry, what revoking a set of tokens changes |
| Sessions.RevokedSessions | src/auth/services/session.service.ts:107-119 | revoking sessions revokes their rows and all their records, lists for seven days those not revoked before, and changes nothing else |
| Sessions.RevokedUser | src/auth/services/session.service.ts:121-131 | revoking a user revokes each of the user's sessions and records and each record of a living session of the user |
| Sessions.AuthStore.RevokeSessionWithTokens | src/auth/services/session.service.ts:107-119 | revokes exactly the session and its active tokens |
| Sessions.AuthStore.RevokeAllUserSessions | src/auth/services/session.service.ts:65-73 | the loop over sessions equals revoking all active sessions of the user at once |
| Sessions.AuthStore.RevokeAndBlacklistAllForUser | src/auth/services/session.service.ts:121-131 | revokes all active tokens of the user and then all sessions |
| Sessions.AuthStore.RefreshToken | src/auth/services/auth.service.ts:254-327 | issues tokens iff every condition holds, refuses otherwise with the first failing check; then revokes the old token and issues two recorded ones; only a changed password revokes anything on refusal |
| Sessions.RefreshRefusalIs | src/auth/services/auth.service.ts:254-312 | a refresh is accepted iff the token is an unexpired refresh token, neither revoked nor listed, device, user, password date and session are in order, and otherwise refused for the first that is not |
| Sessions.RefreshedStore | src/auth/services/auth.service.ts:292-357 | column by column, the store after a refresh, refused or accepted |
| Sessions.AuthStore.Validate | src/auth/strategies/jwt.strategy.ts:52-91 | refuses with the first failing check; the session counts as active iff its own check passed |
| Sessions.AccessRefusalIs | src/auth/strategies/jwt.strategy.ts:52-91 | an access token is accepted iff it is an unexpired access token, not listed, of a living session and an active user, and otherwise refused for the first failing condition |
| Sessions.EverythingOfUserIsRefused | src/auth/services/session.service.ts:121-131 | after revoking all of a user, every access and refresh token of the user's sessions is refused, with or without Redis |
| TokenLifecycle.RevokedSessionAcceptsNothing | src/auth/services/session.service.ts:42-46 | in any interleaving no token of a revoked session is accepted, including tokens issued by refreshes already past their session check |
| TokenLifecycle.NothingAfterRevocation | src/auth/services/session.service.ts:107-119 | from the step that revokes a session on, no token of it is accepted |
| TokenLifecycle.PresentableIff | src/auth/services/auth.service.ts:254-304 | a refresh passes the checks before its session is read iff the token is issued, unexpired, unrevoked and unlisted and device, user and password date are in order |
| TokenCache.RevokedAccessToken | src/common/redis/token-blacklist.service.ts:15-31 | over every run, an issued unexpired access token is turned away by the cache iff Redis answers and the last entry written for it has neither run out nor been dropped; with its session and user in order that decides `validate` |
| TokenCache.OwnListingOutlasts | src/auth/services/session.service.ts:89-96 | the entry written by revoking an access token never runs out before the token |
| TokenExchange.ExchangedAtMostOnce | src/auth/services/auth.service.ts:254-327 | over any run of refreshes taken as one step a refresh token is exchanged at most once, whatever Redis forgets |
| TokenExchange.ExchangedTwiceOnlyInRace | src/auth/services/auth.service.ts:254-327 | in any interleaving, when two refreshes exchange one token, each was presented before either revoked it |
| TokenExchange.FlightsCarryRefresh | src/auth/services/auth.service.ts:254-312 | in any interleaving, a refresh under way carries an issued, unexpired, unrevoked refresh token of an active user whose password was not changed since, as of its presentation |
| TokenExchange.PresentedAccessTokens | src/auth/strategies/jwt.strategy.ts:52-62 | in any interleaving, an access token whose session is about to be read was issued as an access token, unexpired and not listed |
| TokenRace.RaceCanEnd | src/auth/services/auth.service.ts:254-327 | from any state of any run, two refreshes under way can both exchange their tokens iff neither still waits for a session that has ended |
| TokenRace.NoOverlapNoRace | src/auth/services/auth.service.ts:254-327 | a token never presented while another refresh of it is under way is exchanged at most once |
| TokenRace.OverlapCanRace | src/auth/services/auth.service.ts:254-327 | a presentation during another refresh of the token can end in two exchanges iff the sessions still to be read live |
| TokenRace.RaceExample | src/auth/services/auth.service.ts:254-327 | a run in which two interleaved refreshes exchange one token |
| TokenLifecycle.IssuedTokensAreRecorded | src/auth/services/auth.service.ts:329-372 | every issued token has a durable record naming its session and user, and its session exists |
| SubCategories.NormalizeTwice | src/finance/categorization-subcategories.ts:26-29 | normalising a normalised sub-category changes nothing |
| SubCategories.BlanksDoNotMatter | src/finance/categorization-subcategories.ts:26-29 | blanks around a sub-category do not change its canonical spelling |
| SubCategories.CaseDoesNotMatter | src/finance/categorization-subcategories.ts:26-29 | a spelling that stands for a name does so in any letter case |
| LegacyRules.RuleTable.GroupRules | src/database/seeds/categorization-rules.seed.ts:722-757 | the loop leaves every oldest rule with the merged fields of its group, and lists exactly the touched rules and the duplicates with their survivors |
| LegacyRules.RuleTable.ReconcileLegacyRuleGroups | src/database/seeds/categorization-rules.seed.ts:717-775 | leaves the merged rules, leads every link to the survivor of its rule, and reports how many rules were written back and removed |
| LegacyRules.RelinkedIsTarget | src/database/seeds/categorization-rules.seed.ts:761-766 | the sequential replacements never chain: each link ends at the survivor of its rule |
| LegacyMerge.OneRulePerKey | src/database/seeds/categorization-rules.seed.ts:730-757 | the merged rules have distinct keys and distinct IDs |
| LegacyMerge.SurvivorOf | src/database/seeds/categorization-rules.seed.ts:744-757 | every rule has a survivor with its key: the oldest, active iff one of the group is, at the least priority of the group |
| LegacyMerge.LinksLeadToSurvivors | src/database/seeds/categorization-rules.seed.ts:760-768 | a link to any rule leads to the survivor with the same key and other links stay |
| LegacyMerge.SecondRunWritesNothing | src/database/seeds/categorization-rules.seed.ts:717-775 | a second run changes no rule, writes none back and moves no link |
| RuleKeys.EqualKeys | src/database/seeds/categorization-rules.seed.ts:731-740 | with owners that are UUIDs or "system", keys are equal iff the joined category and sub-category, the match type, the trimmed value and the owner agree |
| RuleKeys.OwnersAgree | src/database/seeds/categorization-rules.seed.ts:731-740 | the owners in two keys are equal iff the businesses are, unless one is called "system" |
| RuleKeys.EqualKeysSameParts | src/database/seeds/categorization-rules.seed.ts:731-740 | among equal keys the five parts agree iff the categories are equally long |
| RuleKeys.ColonFreeCategories | src/database/seeds/categorization-rules.seed.ts:731-740 | for categories without a colon, keys are equal iff the five parts are, whatever the sub-categories hold |
| RuleKeys.SystemRuleKeys | src/admin/services/admin-categorization-rules.service.ts:83-107 | for the categories that writers of system rules store, equal keys mean equal parts and the same category |
| RuleKeys.ColonExample | src/database/seeds/categorization-rules.seed.ts:731-740 | two rules with a shared key and different parts; their categories are none that a writer stores |
| RuleMatching.ApplyRules | src/finance/services/categorization.service.ts:707-752 | returns the first rule of the list that matches the description or the name |
| RuleMatching.FirstMatchWins | src/finance/services/categorization.service.ts:115-118 | on the active rules by ascending priority, that is a matching active rule of least priority |
| RuleMatching.TextMatchesIs | src/finance/services/categorization.service.ts:715-735 | letter by letter up to case: CONTAINS anywhere, STARTS_WITH at the start, EXACT the whole text |
| RuleMatching.SameTextsIffSameValue | src/finance/services/categorization.service.ts:715-727 | two rules of one type other than patterns match the same texts iff their values agree in lower case |
| RuleMatching.SameTextsIffSamePattern | src/finance/services/categorization.service.ts:728-735 | two patterns match the same texts under every engine iff they are the same string |
| RuleMatching.OneKeyClassifiesAlike | src/database/seeds/categorization-rules.seed.ts:731-740 | two rules of one key, not patterns, classify alike iff the blanks around their values, their categories and their sub-categories as spelled agree |
| RuleMatching.OnePatternClassifiesAlike | src/finance/services/categorization.service.ts:728-735 | equal patterns with equal outcomes classify alike |
| RuleTables.ContextsDecide | src/finance/services/categorization.service.ts:707-752 | two tables assign the same next to any rules of other keys iff for every transaction the winning priority and the winning outcomes agree |
| RuleEffect.KeptBySurvivor | src/database/seeds/categorization-rules.seed.ts:744-757 | a rule that is no pattern classifies like its survivor iff it has the blanks and the category of the oldest rule of its key and already the survivor's canonical sub-category |
| RuleEffect.GroupInContext | src/database/seeds/categorization-rules.seed.ts:744-757 | next to any rules of other keys, replacing any group by its survivor changes no classification iff for every text the survivor matches what an active rule matches, an active rule of its priority matches what it matches if active, and the matching active rules of that priority have its outcome |
| RuleEffect.RowsDecide | src/database/seeds/categorization-rules.seed.ts:744-757 | without patterns these conditions hold iff the rows pass a check: values contained, an active rule with the oldest's value at the least priority, and equal outcomes there |
| RuleEffect.MergeInContext | src/database/seeds/categorization-rules.seed.ts:717-775 | the merge of a whole table changes no classification next to any rules of other keys iff every transaction keeps its winning priority and outcomes |
| RuleEffect.MergeKeepsClassification | src/database/seeds/categorization-rules.seed.ts:717-775 | the merge changes no classification, next to any rules of other keys, when the group of every key meets the three conditions |
| RuleExamples.BlankExample | src/finance/services/categorization.service.ts:715-721 | a group whose merge leaves a text unclassified, because of a trailing blank |
| RuleExamples.UnlikeButHarmless | src/finance/services/categorization.service.ts:715-721 | two rules of one key that classify differently, and whose merge still changes no classification |
| RuleExamples.HiddenHarmExample | src/database/seeds/categorization-rules.seed.ts:717-775 | a table whose merge changes no classification although one group fails the conditions, because another rule takes its texts first |
| RuleExamples.PatternExample | src/finance/services/categorization.service.ts:728-735 | two patterns of one key whose merge leaves a text unclassified |
| RuleExamples.SpellingExample | src/finance/services/categorization.service.ts:738-784 | a single rule whose respelled sub-category changes the name that is assigned and looked up |
| RuleExamples.InactiveLeadExample | src/database/seeds/categorization-rules.seed.ts:752-754 | a group whose survivor takes a transaction from a rule of another key, with the priority of an inactive rule |
| NaiveBayes.DynamicNaiveBayes.PartialFit | categorization-engine/server.py:26-39 | the counters of a history become the counters of the history with the new document |
| NaiveBayes.DynamicNaiveBayes.Predict | categorization-engine/server.py:41-77 | untrained: "Uncategorized" with 0; otherwise a trained class of greatest posterior, the earliest trained of those, with its posterior as confidence, in [1/k, 1] |
| Posteriors.DocCountIs | categorization-engine/server.py:32-33 | the document count of a class is the number of its documents |
| Posteriors.WordCountIs | categorization-engine/server.py:35-38 | the word count of a class is the number of places of the word in its documents |
| Posteriors.EmptyTextPosterior | categorization-engine/server.py:48-49 | the posterior of the empty text is the share of the class in the training documents |
| Posteriors.PosteriorsSumToOne | categorization-engine/server.py:62-75 | the posteriors of all classes add up to 1, and no other category has any |
| Posteriors.OneMoreWord | categorization-engine/server.py:50-58 | one more word multiplies the odds of two classes by the smoothed share of the word in the one over that in the other |
| NaiveBayes.ProbabilitiesSumToOne | categorization-engine/server.py:53-56 | the smoothed probabilities over the vocabulary and one unseen slot sum to exactly 1 |
| NaiveBayes.OrderIsIrrelevant | categorization-engine/server.py:26-39 | every counter depends only on the multiset of training documents |
| NaiveBayes.PosteriorIgnoresOrder | categorization-engine/server.py:41-77 | every posterior depends only on the multiset of training documents |
| Csv.FileRoundTrip | src/finance/finance.controller.ts:1270-1274 | parsing any printed table by section 2 of RFC 4180 gives back its rows |
| Csv.ExportRoundTrip | src/finance/finance.controller.ts:1240-1274 | parsing the export gives back the header and the rows of the transactions |
| Csv.ColumnsAreNamed | src/finance/finance.controller.ts:1244-1268 | in the parsed export each field of a transaction stands under the name of its column |
| Csv.PlainIffHarmless | src/finance/finance.controller.ts:1276-1280 | a value is printed without quotes iff it holds no quote, comma or line end |
| ExternalIds.BuildExternalIds | src/finance/services/pdf-transaction-external-id.util.ts:3-20 | the loop over the counting map gives the n-th occurrence of a base ID its plain form or the suffix n |
| ExternalIds.SameBaseId | src/finance/services/pdf-transaction-external-id.util.ts:10-12 | a reference is the base ID; rows without one whose first three fields hold no colon have equal base IDs iff all four fields agree |
| ExternalIds.SampleIds | src/finance/services/pdf-transaction-external-id.util.ts:9-19 | the IDs of two equal rows without a reference, letter by letter |
| ExternalIds.DistinctIffNoClash | src/finance/services/pdf-transaction-external-id.util.ts:9-19 | all IDs differ iff no base ID reads like the suffixed ID of a repeated one |
| ExternalIds.DistinctWithoutSuffixes | src/finance/services/pdf-transaction-external-id.util.ts:9-19 | all IDs differ when no base ID ends in ":duplicate-" and digits |
| ExternalIds.ClashExample | src/finance/services/pdf-transaction-external-id.util.ts:9-19 | a statement with two equal IDs |
| ExternalIds.IdsAreStable | src/finance/services/pdf-transaction-external-id.util.ts:7-19 | appending rows to a statement keeps the IDs of the rows before |

## Left out

- HTTP calls to the bank, gRPC, the SQL database, Redis and S3 transport, email: a repository is a sequence or map with
  atomic operations, a download succeeds or throws, a Redis access works or fails.
- ExchangedAtMostOnce: takes each refresh as one step; `NoOverlapNoRace` and `OverlapCanRace` say what holds when
  refreshes interleave.
- RefreshToken: every token carries its ID and the instant of its issue, as all tokens that the service signs do.
- WrittenFileIsReadable: the reader knows the dictionary layout of the writer, so it checks places, lengths and references;
  the spelling of the dictionaries is stated apart (`PageText`). It needs a file body below 10^10 bytes, because offsets are
  padded to ten digits; characters stand for the bytes of Latin-1.
- TextRoundTrip: the reader knows only the escapes that are written, not the others of section 7.3.4.2.
- WrittenWindowsAreDownloaded: needs that no forced run starts with both boundaries before 1 January; `GapCondition` is
  the exact statement for one run.
- OrderIsIrrelevant: speaks of counters and scores; among classes of equal score `Predict` takes the one trained first,
  which the order of training decides.
- RowsDoNotOverlap: takes every row but a spacer to paint its full box; colours and coordinates inside a row, the texts of
  headers and footers, the summary cards and `parseRows` are not modelled.
- BuildPages: replaces the marks in the texts before escaping; escaping adds characters that no mark holds, so the order
  makes no difference.
- PageOrderIsIrrelevant: asks that a transaction that comes twice is the same both times; otherwise the last one counts, and
  the order of the pages decides which that is.
- OnePatternClassifiesAlike: one direction for a single engine, because different patterns may match the same texts;
  `SameTextsIffSamePattern` is exact over all engines.
- MergeKeepsClassification: one direction for a table of several groups, because other rules can hide the harm of a
  group (`HiddenHarmExample`); `GroupInContext` is exact for a group and `MergeInContext` for a table. The classification by
  an AI model that follows the rules is not modelled; among rules of equal priority any may come first.
- UpsertTransactions: of what the database refuses, a missing type and violated foreign keys are not modelled.
- GroupRules: names a loaded rule object by its position; other aliasing of entity objects is not modelled.
- The promise chain, interleaved syncs and interleaved refreshes are state machines over their atomic steps, not methods;
  what a finance sync does for each account is the step that settles it, successfully or not.
- Floating point, logarithms and exponentials of the classifier: scores are products of real numbers, without rounding,
  underflow or the shift by the greatest logarithm.
- Splitting text into words for the classifier, `comparisonKey` of labels, date and amount formatting of the export:
  their results are inputs.
- Unicode case folding, white space and normalisation: letters and white space are those of ASCII.
- Dates are integers in milliseconds; the comparison of ISO strings in the cooldown report agrees with them for years 0
  to 9999; the Lagos day format of download requests is not modelled.
- Row IDs are numbered in the order in which `localeCompare` sorts them; rules with equal creation times keep the order
  in which the query returns them.
- Prediction and resolution of categories during an import: the resulting category columns are an input of each download.
- Names inherited by JavaScript objects ("constructor", "__proto__") as sub-categories in the alias table.
- Rules that are not system rules, and the update timestamps of rows.
- Signatures of tokens: tokens are records that only the service issues; device checks are an input.
- `normalizeKeywords`, `groupRules`, `parseCategoryPath` and the job-ID guard of webhook status updates: easier than what
  is modelled.
- Controllers, guards, DTOs, OCR, dashboards, subscriptions and other CRUD: no property beyond plumbing.
