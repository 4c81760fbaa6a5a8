# Docketra: verified models of the stateful controllers

The back end keeps its intricate logic inside large Express controllers and two migration scripts.
This project models that logic, one Dafny module per component, and proves what each component is
for. HTTP, storage and logging are stripped away; what a database, a clock, a bulk write or a token
check answers is a parameter, so every result holds for all such answers.

* `Text`, `Options`, `Sequences` – trimming, case folding and splitting as the controllers use them;
  absent values; sequences without repetition.
* `Csv`, `HeaderMatching`, `RowValidation`, `CategoryImport`, `BatchedWriter` – the bulk import: a
  quote-aware reader with its inverse, the greedy header matcher, the row validator, the category
  import end to end, and the accounting of batched writes.
* `SetupToken`, `AccountLockout`, `SingleFlight` – protocols as state machines whose steps are the
  stretches between two `await`s; each single database call is atomic and the clock never goes back.
  Results hold in every interleaving.
* `OtpCooldown`, `PasswordHistory`, `ReplayGuard` – state held in memory or on one document, as
  classes whose methods are tied to functions on values, with results over all runs.
* `ActivityFeed`, `ActivityPages` – the paged merge of two bounded fetches, against the feed built from
  everything, and what a single page promises.
* `Hierarchy`, `HierarchyTree` – the update of a member's references and the tree built from them.
* `FirmMigration`, `FirmIntegrity`, `PrimaryAdminBackfill` – two data migrations; the integrity
  checks are the specification of the first, a fixpoint that of the second.
* `EffortLedger`, `EffortReports` – running totals and the reports grouped from them.

`dafny verify dfyconfig.toml` checks everything.

## What the proofs found

Where the code misses what its documentation or its shape suggests, the code is modelled as it is and
the exact condition is proved.

* A CSV cell with a line feed inside quotes (allowed by section 2 of RFC 4180) is split; the
  round trip holds exactly without such cells, with trimmed cells, and when the header's raw counts
  select the delimiter (`Csv.RoundTrip`).
* `clients` requires five fields that are no headers of the type, so every client file is rejected as
  incomplete (`HeaderMatching.ClientFilesAreAlwaysRejected`, exact condition `AcceptableTables`).
* The key `category::subcategory` is not escaped. Not only `::` in a category, a trailing single
  colon is enough for two pairs to share a key (`RowValidation.PairKeyCollides`); a row can then hide
  behind another, and a second import takes it (`CategoryImport.ColonsHideARow`). `ImportIsFinalExactly`
  tells from the file and the snapshot, before the import, whether that can happen.
* `failureCount` equals the failed results exactly when no bulk write reports more errors than it had
  operations; success and failure add up exactly when each successful write reports one change per
  operation, which an update that changes nothing does not (`BatchedWriter`).
* Account setup compares the expiry with the time the request began, so it can succeed at or after the
  expiry, exactly when the expiry falls within the time a request takes (`SetupToken.LateExactly`). An
  expiry kept only in the legacy field passes the first check but never activates (`UndisturbedSetup`).
* A setup between the load and the save of a resend leaves its mark of use, so the token just sent is
  answered as already used (`SetupToken.ResendOverSetup`).
* A slow request may overwrite a newer lock with its own older one. The lock stored is in force at
  every locked reply of every run if and only if twice a request's duration is at most one millisecond
  more than the lock time (`AccountLockout.StoredLockInForceExactly`).
* A used client status verification is accepted again if its expiry passes between the signature
  check and the reuse check of one call, and only then (`ReplayGuard.PruningIsInvisible`,
  `StraddlingCallReplays`).
* Activity rows hidden by the route filter still use up the fetch, so pages can fall short of the
  feed (`ActivityFeed.HiddenRowsShortenPages`, exact condition `ActivityPages.PageExactly`), and
  `hasNextPage` can announce a page in vain (`ActivityFeed.NextPageAnnounced`). A feed of one
  collection is cut off at row 5000 (`ActivityFeed.PagesEndAtTheCap`).
* The feed is sorted by time alone, so each query may order rows of equal time differently. A page shows
  the same rows whatever the order if and only if neither of its ends parts two rows of one collection
  with equal times (`ActivityPages.RowsFixedExactly`).
* Check 3 of the integrity script throws, rather than reporting, when an admin without a default belongs
  to a firm with one (`FirmIntegrity.ListMismatches`).
* Moving a manager to another admin leaves its reports tied to the old one
  (`Hierarchy.MovingAManagerBreaksChains`, exact condition `UpdateCoherent`).
* An admin tied to another primary admin disappears from the tree together with its subtree
  (`HierarchyTree.ListedOnceExactly`).
* One run of the primary-admin backfill settles a firm exactly when it demotes nobody who still
  carries tags (`PrimaryAdminBackfill.OneRunSettles`); two runs always do.

## Model

| member | source | states |
|---|---|---|
| Text.TrimDropsSpace | src/controllers/bulkUpload.controller.js:138-150 | trimming removes the white space around a string, all of it, and nothing else |
| Text.FoldingExactly | src/controllers/bulkUpload.controller.js:386-391 | folding identifies exactly the strings that differ in case alone, for the letters A to Z |
| Csv.SplitCsvLine | src/controllers/bulkUpload.controller.js:121-152 | the in-place scanner with its look-ahead yields exactly the cells of the recursive reader |
| Csv.SplitPrintedLine | src/controllers/bulkUpload.controller.js:121-152 | a line of quoted cells read with its own delimiter gives the cells back trimmed, read with another it is one cell |
| Csv.SplitMixedLine | src/controllers/bulkUpload.controller.js:121-152 | plain and quoted stretches may be mixed freely, within a cell too, and a last quote left open; each cell comes back trimmed in its place |
| Csv.EveryLine | src/controllers/bulkUpload.controller.js:121-152 | every line is such a mixture, so that together these two say what is read from any line whatsoever |
| Csv.DelimiterIsSelected | src/controllers/bulkUpload.controller.js:154-162 | the delimiter is a tab if and only if tabs outnumber both others, else a semicolon if and only if these outnumber the commas, else a comma, by the header's multiset of characters |
| Csv.ParsePrinted | src/controllers/bulkUpload.controller.js:154-175 | what the parser makes of a printed document without line feeds in cells, for the delimiter that the header's characters select and either line ending |
| Csv.FeedsAddRows | src/controllers/bulkUpload.controller.js:164-175 | a line feed inside a cell always adds rows |
| Csv.RoundTrip | src/controllers/bulkUpload.controller.js:121-175 | parsing a printed table returns its headers and rows if and only if cells are trimmed and free of line feeds and the header's characters select the delimiter (or every line has one cell) |
| Csv.UsualRoundTrip | src/controllers/bulkUpload.controller.js:121-175 | a header of two or more cells free of delimiters, written with any of the three, comes back with its rows, numbered from 2, if and only if cells are trimmed and free of line feeds |
| Csv.SurroundingSpace | src/controllers/bulkUpload.controller.js:164-166 | white space around a file, a byte order mark included, changes nothing |
| Csv.BlankFile | src/controllers/bulkUpload.controller.js:164-169 | no header is found exactly in a file of white space alone |
| Csv.LineFeedBreaksRoundTrip | src/controllers/bulkUpload.controller.js:168-173 | a concrete quoted cell with a line feed does not come back |
| HeaderMatching.MapHeaders | src/controllers/bulkUpload.controller.js:230-258 | the two passes yield the specified matching, and the missing list is that of the required fields left open |
| HeaderMatching.MatchingIsSound | src/controllers/bulkUpload.controller.js:230-258 | for any file, aliases and mapping: no column feeds two fields, every column exists, a field the caller did not map has a column that fits its name or an alias, and a field left open has no unused one |
| HeaderMatching.AutoComplete | src/controllers/bulkUpload.controller.js:245-253 | the automatic pass keeps earlier matches and leaves a field open only when every matching column is taken |
| HeaderMatching.ManualIsHonoured | src/controllers/bulkUpload.controller.js:236-243 | an entry of the caller counts exactly when its target is a field, its source a header, and no earlier such entry names that source; a field gets the first column of the last entry for it that counts, and without one is left to the automatic pass |
| HeaderMatching.ManualIsKept | src/controllers/bulkUpload.controller.js:236-243 | a field the caller mapped stays mapped to a column the caller named for it |
| HeaderMatching.ColumnOrderIsIrrelevant | src/controllers/bulkUpload.controller.js:245-263 | without ambiguity, permuting the columns of a file changes no row object |
| HeaderMatching.CanonicalColumns | src/controllers/bulkUpload.controller.js:245-263 | with disjoint aliases any order of the canonical columns maps every field to the trimmed cell under its own header |
| HeaderMatching.UnlistedRequiredIsMissing | src/controllers/bulkUpload.controller.js:255-257 | a required field that is no header is reported missing for every file and mapping |
| HeaderMatching.AcceptableTables | src/controllers/bulkUpload.controller.js:255-257 | a type accepts some file if and only if its required fields are headers |
| HeaderMatching.ClientFilesAreAlwaysRejected | src/constants/bulkUploadSchema.js:21-38 | with the client tables as they stand every file is rejected |
| RowValidation.ValidateRows | src/controllers/bulkUpload.controller.js:360-502 | the one-pass validator returns the lists of the specified verdicts in file order |
| RowValidation.VerdictAt | src/controllers/bulkUpload.controller.js:368-499 | the verdict on a row depends only on the row and the keys accepted before it |
| RowValidation.FirstChecks | src/controllers/bulkUpload.controller.js:368-377 | a row is left out exactly when all its cells are blank, and fails the schema exactly when a required field is blank or a cell fails its check |
| RowValidation.ClientVerdict | src/controllers/bulkUpload.controller.js:471-499 | every later verdict on a client row, from its folded e-mail address, those accepted before it, the mode and the addresses the firm has |
| RowValidation.CategoryVerdict | src/controllers/bulkUpload.controller.js:386-440 | every later verdict on a category row, from its cells, the pairs accepted before it, the mode and the firm's categories, with the workbasket and the action an accepted row carries |
| RowValidation.TeamVerdict | src/controllers/bulkUpload.controller.js:378-499 | every later verdict on a team row, from its cells, the addresses accepted before it, the mode and the firm's users, workbaskets and clients, with the role and the ids an accepted row carries |
| RowValidation.PipeListExactly | src/controllers/bulkUpload.controller.js:274-279 | a list of names holds the trimmed, non-empty parts, each once, in the order of first mention |
| RowValidation.AcceptedLead | src/controllers/bulkUpload.controller.js:405-434 | the accepted rows are exactly the first of each key among those acceptable in a file of their own |
| RowValidation.Partition | src/controllers/bulkUpload.controller.js:360-502 | each non-empty row lands in exactly one of valid, invalid and skipped, each in file order without repetition; empty rows in none |
| RowValidation.ValidKeysDistinct | src/controllers/bulkUpload.controller.js:405-434 | accepted rows have pairwise distinct keys |
| RowValidation.ModeDecides | src/controllers/bulkUpload.controller.js:418-499 | rows the database holds are accepted in update mode only, skipped in skip mode only, and turned away as existing in fail mode only; other rows never for that reason; accepted rows carry the right action |
| RowValidation.ExistingNeverValid | src/controllers/bulkUpload.controller.js:107-117 | what the database holds is accepted in update mode only, and for categories never |
| RowValidation.FileDuplicates | src/controllers/bulkUpload.controller.js:405-408 | a row is turned away as a file duplicate only if an earlier accepted row has its key, and such a row is never accepted or skipped |
| RowValidation.PairKeyInjective | src/controllers/bulkUpload.controller.js:391-391 | keys identify pairs when no category contains a double colon or ends in a colon |
| RowValidation.PairKeyCollides | src/controllers/bulkUpload.controller.js:391-391 | every other category shares its keys with a pair under another category |
| CategoryImport.Collection.LoadCache | src/controllers/bulkUpload.controller.js:540-552 | the cache finds every named category of the store, the last one of a folded name |
| CategoryImport.Collection.WriteRow | src/controllers/bulkUpload.controller.js:559-587 | one row's write through the cache equals the write on the whole store, and the cache stays right |
| CategoryImport.Collection.Import | src/controllers/bulkUpload.controller.js:539-587 | the import loop leaves the store that the rows define one after another |
| CategoryImport.ImportResult | src/controllers/bulkUpload.controller.js:386-440 | after validation and import names are unique ignoring case, nothing is removed or renamed, and a pair is held if and only if it was held or an accepted row describes it |
| CategoryImport.NewIsExplained | src/controllers/bulkUpload.controller.js:386-587 | after validation and import each new category bears the trimmed name of the first accepted row naming it, and each new subcategory the trimmed name and the workbasket, found by id or else by name, of the first accepted row asking for the pair |
| CategoryImport.ImportIsFinalExactly | src/controllers/bulkUpload.controller.js:386-440 | re-validating the file in skip mode accepts no row if and only if, in the file and the snapshot before the import, no importable row stands behind an accepted one of the same key that does not bring what it asks for |
| CategoryImport.NothingLeftToImport | src/controllers/bulkUpload.controller.js:386-440 | with separable category names re-validating the file in skip mode accepts no row |
| CategoryImport.ColonsHideARow | src/controllers/bulkUpload.controller.js:391-408 | two concrete rows where the second import takes what the first hid |
| BatchedWriter.ProcessBulkRows | src/controllers/bulkUpload.controller.js:529-829 | the loop with its buffer, counters and final flush yields the specified totals |
| BatchedWriter.WriteBatch | src/controllers/bulkUpload.controller.js:686-725 | one bulk write and its bookkeeping for each of the three outcomes |
| BatchedWriter.BatchesAreTheOperations | src/controllers/bulkUpload.controller.js:686-829 | the flushed batches concatenate to the unbatched operations; all but the last are full, none is empty |
| BatchedWriter.FiveHundredEach | src/controllers/bulkUpload.controller.js:538-829 | the importer's batches hold five hundred operations, the last one at most that |
| BatchedWriter.RowsAreTold | src/controllers/bulkUpload.controller.js:680-829 | each row is reported with its own action, as failed if it could not be prepared and otherwise as the bulk write that took it turned out; the rows handed on as created are those to create that a successful write took |
| BatchedWriter.OneResultPerRow | src/controllers/bulkUpload.controller.js:680-829 | each row number is reported exactly as often as it occurs, whatever fails |
| BatchedWriter.FailureCountIsExact | src/controllers/bulkUpload.controller.js:706-723 | failureCount is the number of failed results if and only if no write reports more errors than operations |
| BatchedWriter.CountersAddUp | src/controllers/bulkUpload.controller.js:686-829 | success plus failure never exceeds the rows, and equals them if and only if every successful write reports one change per operation |
| SetupToken.TokenActivatesOnce | src/controllers/auth.controller.js:2910-2934 | in every interleaving of setups and resends no token activates twice |
| SetupToken.ActivationWasAllowed | src/controllers/auth.controller.js:2868-2920 | an activation found its token stored, unused, and unexpired at the start of its request |
| SetupToken.SpentTokenIsUnknown | src/controllers/auth.controller.js:2870-2880 | a token that has activated is from then on answered as invalid |
| SetupToken.UndisturbedSetup | src/controllers/auth.controller.js:2868-2934 | alone, a request succeeds exactly when the token is stored, unused and its setup expiry lies ahead, and otherwise gets the reason |
| SetupToken.LoserIsToldUsed | src/controllers/auth.controller.js:2922-2934 | of two requests past their first checks, the one that comes second is told the link has been used |
| SetupToken.ActivatedIsActive | src/controllers/auth.controller.js:2888-2899 | in every interleaving an account that has been set up is active, and stays so through later resends |
| SetupToken.ResendStoresItsToken | src/controllers/auth.controller.js:2981-2990 | whatever happened between load and save, a saved resend leaves its token stored in both places and every other account as it was; only fields that were already as wanted when loaded are not written |
| SetupToken.ResendReplaces | src/controllers/auth.controller.js:2981-2990 | with nothing between load and save the account stores no other token, is unused and expires at the given time |
| SetupToken.FreshTokenActivates | src/controllers/auth.controller.js:2868-2990 | then a lone setup with that token before that time activates the account, which is active, used and stores no token afterwards |
| SetupToken.SupersededTokenIsUnknown | src/controllers/auth.controller.js:2870-2990 | and a superseded token is answered as invalid |
| SetupToken.ResendOverSetup | src/controllers/auth.controller.js:2868-2990 | the fresh token is answered as already used if and only if the account was set up between load and save |
| SetupToken.LateActivation | src/controllers/auth.controller.js:2868-2920 | for every expiry that falls within the time a request takes, a run that activates at the expiry |
| SetupToken.LateExactly | src/controllers/auth.controller.js:2868-2920 | for every start, expiry and bound on a request's duration, some run activates at or after the expiry if and only if it falls after the start and before the bound runs out |
| AccountLockout.CounterIsExact | src/controllers/auth.controller.js:1137-1141 | in every interleaving the counter moves by exactly the number of requests counted |
| AccountLockout.Replies | src/controllers/auth.controller.js:1151-1232 | below the maximum a request learns what remains; at or above it, that the account is locked, with a lock in force |
| AccountLockout.RemainingDistinct | src/controllers/auth.controller.js:1227-1231 | no two requests are told the same number of remaining attempts |
| AccountLockout.StoredLockInForceExactly | src/controllers/auth.controller.js:1135-1185 | for every maximum, the stored lock is in force at every locked reply of every run if and only if twice a request's duration is at most the lock time plus one |
| AccountLockout.CounterNeverFalls | src/controllers/auth.controller.js:1137-1141 | failures never lower the counter |
| AccountLockout.LoneFailure | src/controllers/auth.controller.js:1151-1185 | whatever the account holds, an undisturbed failure is told the account is locked exactly when it reaches the maximum, and sets the lock, for a full lock time, exactly when in addition none is in force; so it locks again after a lock has run out |
| AccountLockout.OlderLockMayWin | src/controllers/auth.controller.js:1135-1161 | whenever that bound fails, a run in which a slow request's older lock replaces a newer one and has run out at a locked reply |
| OtpCooldown.OtpCache.CleanupExpired | src/controllers/auth.controller.js:476-483 | the sweep keeps exactly the live entries, unchanged |
| OtpCooldown.OtpCache.AcquireLock | src/controllers/auth.controller.js:578-612 | the answer and the whole new map |
| OtpCooldown.OtpCache.CacheOtp | src/controllers/auth.controller.js:614-636 | the new map after a code is stored |
| OtpCooldown.OtpCache.Clear | src/controllers/auth.controller.js:638-648 | both entries of the user are gone, nothing else changes |
| OtpCooldown.EvictionIsInvisible | src/controllers/auth.controller.js:596-612 | over any run evicting expired entries on any key changes no answer |
| OtpCooldown.GrantsAreSpaced | src/controllers/auth.controller.js:598-611 | two grants of one lock with no clearing between are at least 30 seconds apart |
| OtpCooldown.WaitingSuffices | src/controllers/auth.controller.js:600-605 | a refusal asks for 1 to 30 seconds, and waiting that long suffices unless somebody else was granted the lock |
| OtpCooldown.WaitingIsNeeded | src/controllers/auth.controller.js:600-605 | whoever asks more than a second before that time is over, with no clearing in between, is refused again |
| OtpCooldown.ClearingFrees | src/controllers/auth.controller.js:638-648 | after a clearing the next acquisition is granted |
| OtpCooldown.CodeIsTheLastStored | src/controllers/auth.controller.js:614-648 | over any run a user's live code is the last one stored, unless the user was cleared since |
| OtpCooldown.KeysDiffer | src/controllers/auth.controller.js:569-576 | a code is never stored under a lock's key |
| OtpCooldown.KeysArePerUser | src/controllers/auth.controller.js:569-576 | the firm and the user identify a lock, and a code |
| PasswordHistory.User.ChangePassword | src/controllers/auth.controller.js:1347-1433 | reply and new account, for each refusal and for success |
| PasswordHistory.User.ResetPasswordWithToken | src/controllers/auth.controller.js:3030-3130 | reply and new account, for each refusal and for success |
| PasswordHistory.HistoryIsTheWindow | src/controllers/auth.controller.js:1414-1426 | over any run of changes and resets the history is the last at most five superseded passwords in order |
| PasswordHistory.SevenInARowDistinct | src/controllers/auth.controller.js:1388-1426 | any seven consecutive passwords are pairwise distinct |
| PasswordHistory.AcceptedExactly | src/controllers/auth.controller.js:3072-3095 | past the other checks a password is accepted if and only if it is none of the account's last six |
| PasswordHistory.ChangeIsTold | src/controllers/auth.controller.js:1347-1433 | over any run, each reply to a change, read off the passwords the account has had |
| PasswordHistory.ResetIsTold | src/controllers/auth.controller.js:3030-3130 | over any run, each reply to a reset, likewise |
| ReplayGuard.Guard.Prune | src/controllers/client.controller.js:66-73 | the sweep keeps exactly the entries still in force |
| ReplayGuard.Guard.Ensure | src/controllers/client.controller.js:89-161 | reply and new map for each refusal, a failed identifier look-up included, and for acceptance, with four clock readings |
| ReplayGuard.PruningIsInvisible | src/controllers/client.controller.js:66-152 | over any run the pruned map answers as a log that never forgets if and only if no used token's expiry passes between the call's signature check and its reuse check |
| ReplayGuard.AcceptedOnce | src/controllers/client.controller.js:127-152 | a second acceptance of an identifier needs that to happen, so none occurs when the expiry passes only between reuse check and recording |
| ReplayGuard.RepliesExactly | src/controllers/client.controller.js:89-161 | over any run, each of the five replies, read off the call and the calls accepted before it |
| ReplayGuard.OnlyLiveIsRecorded | src/controllers/client.controller.js:147-150 | only an acceptance is remembered, only while in force, and until its token expires |
| ReplayGuard.StraddlingCallReplays | src/controllers/client.controller.js:100-135 | a run with two acceptances of one identifier |
| ReplayGuard.NoExpiryIsNeverRemembered | src/controllers/client.controller.js:147-150 | a token without an expiry is never recorded; the issuer always sets one (src/services/otp.service.js:105-116) |
| ActivityFeed.StableSortIsStable | src/controllers/admin.controller.js:1418-1419 | the sort orders newest first and keeps rows of equal time in order |
| ActivityFeed.SortIsMerge | src/controllers/admin.controller.js:1418-1419 | sorting the concatenation of two sorted sources is merging them |
| ActivityFeed.PrefixesSuffice | src/controllers/admin.controller.js:1369-1386 | prefixes of the sources give the first rows of the merge if and only if neither is drawn on beyond its prefix |
| ActivityFeed.FetchExactly | src/controllers/admin.controller.js:1369-1420 | the exact condition, with hidden rows, for the fetched rows to begin as the feed does |
| ActivityPages.PageExactly | src/controllers/admin.controller.js:1333-1420 | for any page, page size, cap and filter, the page is that page of the complete feed if and only if the feed has ended before it or holds, up to the end of the page, no more rows of each collection than were fetched and kept |
| ActivityFeed.PageIsRight | src/controllers/admin.controller.js:1333-1420 | within the cap and with no row hidden a page equals that page of the complete feed |
| ActivityFeed.PagesEndAtTheCap | src/controllers/admin.controller.js:1369-1420 | a feed of case rows alone is cut off at row 5000: later pages are empty although the feed goes on |
| ActivityFeed.PagesAreAPrefix | src/controllers/admin.controller.js:1333-1420 | pages 1 to p concatenate to a prefix of the feed, with no gap and no repetition, when every query orders rows of equal time alike |
| ActivityPages.RowsFixedExactly | src/controllers/admin.controller.js:1371-1386 | a page shows the same rows for every order of rows of equal time if and only if neither of its ends parts two rows of one collection with equal times |
| ActivityFeed.NextPageAnnounced | src/controllers/admin.controller.js:1426-1431 | hasNextPage is true whenever the feed goes on, and in vain exactly when the rows shown end by this page although the rows counted do not |
| ActivityFeed.HiddenRowsShortenPages | src/controllers/admin.controller.js:1389-1397 | a hidden row makes a page come out empty although the feed is not |
| Hierarchy.Directory.UpdateUserHierarchy | src/controllers/admin.controller.js:1921-2004 | reply and new members for every refusal and for success |
| Hierarchy.UpdateIsTold | src/controllers/admin.controller.js:1940-1990 | each reply, read off the members and the references asked for |
| Hierarchy.UpdateStores | src/controllers/admin.controller.js:1976-2002 | a granted request stores exactly the references asked for, reports go to the manager, and nothing else of the member changes |
| Hierarchy.UpdateKeepsTyped | src/controllers/admin.controller.js:1969-2002 | every adminId keeps pointing at an ADMIN and every managerId at a MANAGER of the firm |
| Hierarchy.UpdateCoherent | src/controllers/admin.controller.js:1976-2002 | members keep sharing their manager's admin if and only if no manager is moved away from reports of its own |
| Hierarchy.MovingAManagerBreaksChains | src/controllers/admin.controller.js:1994-1997 | a granted move that breaks a chain |
| HierarchyTree.GetHierarchyTree | src/controllers/admin.controller.js:1844-1912 | the maps and the two placing passes build the specified tree |
| HierarchyTree.TreeExactly | src/controllers/admin.controller.js:1852-1910 | the whole tree read off the members: which admins, managers and users stand where, complete and in order, in every list |
| HierarchyTree.ManagersComeFirst | src/controllers/admin.controller.js:1889-1908 | a user whose managerId is a MANAGER's is listed by that manager's node and by no other, never directly below an admin and never as unassigned |
| HierarchyTree.WhoIsOnTop | src/controllers/admin.controller.js:1852-1868 | the tree is the caller's if a primary admin, else the first primary admin's, and empty without one |
| HierarchyTree.TreeInPlace | src/controllers/admin.controller.js:1881-1910 | whoever the tree shows below an admin or a manager refers to it, and no admin shown is tied to another primary |
| HierarchyTree.ListedOnce | src/controllers/admin.controller.js:1870-1910 | with no admin tied to another primary, each other ADMIN, MANAGER and USER is listed exactly once |
| HierarchyTree.ListedOnceExactly | src/controllers/admin.controller.js:1910-1910 | everyone is listed exactly once if and only if no admin is tied to another primary |
| HierarchyTree.UnassignedExactly | src/controllers/admin.controller.js:1881-1908 | with typed references the unassigned are exactly those without references |
| FirmMigration.Database.FixFirm | scripts/migrate-fix-firm-client-integrity.js:230-321 | a firm's fix: client found or created, firm linked, admins backfilled; or a write failed |
| FirmMigration.Database.Transaction | scripts/migrate-fix-firm-client-integrity.js:342-378 | a firm's transaction commits the whole fix, or, when a write or the commit fails, leaves everything as it was |
| FirmMigration.Database.Analyze | scripts/migrate-fix-firm-client-integrity.js:124-184 | the firms without default in order, and no admin to fix exactly when the second loop would change none |
| FirmMigration.Database.Migrate | scripts/migrate-fix-firm-client-integrity.js:326-408 | the whole run, with the transactions aborted and updates refused, and a failure count that is zero exactly when there were none |
| FirmIntegrity.ListMismatches | scripts/validate-integrity-fixes.js:109-160 | check 3 passes if and only if every admin matches its firm, and throws if and only if some admin without a default belongs to a firm with one |
| FirmIntegrity.ListInternalIssues | scripts/validate-integrity-fixes.js:192-229 | check 5 reports nothing if and only if each firm has exactly one internal client |
| FirmIntegrity.MigrationEstablishesChecks | scripts/validate-integrity-fixes.js:56-229 | after a run without failures checks 1 to 5 pass if and only if every admin and every firm was fixable beforehand |
| FirmIntegrity.SetDefaultsUntouched | scripts/migrate-fix-firm-client-integrity.js:287-307 | whatever fails, a default already set stays |
| FirmIntegrity.AbortedFirmUntouched | scripts/migrate-fix-firm-client-integrity.js:367-378 | an aborted firm keeps its row, its internal clients and its admins |
| FirmIntegrity.SecondRunIsIdle | scripts/migrate-fix-firm-client-integrity.js:326-330 | after a run without failures a second run changes nothing |
| FirmIntegrity.FinalAdmin | scripts/migrate-fix-firm-client-integrity.js:287-405 | what becomes of each admin under any pattern of failures |
| FirmIntegrity.FinalFirm | scripts/migrate-fix-firm-client-integrity.js:230-321 | what becomes of each firm under any pattern of failures, its bootstrap status included |
| PrimaryAdminBackfill.BackfillFirm | scripts/migrations/backfill_user_hierarchy_primary_admin.js:25-72 | the loop over a firm's users, in place, yields the specified users |
| PrimaryAdminBackfill.OneRun | scripts/migrations/backfill_user_hierarchy_primary_admin.js:36-72 | one run leaves exactly one primary admin, everyone else tied to it, and later runs choose the same user |
| PrimaryAdminBackfill.WhoIsCrowned | scripts/migrations/backfill_user_hierarchy_primary_admin.js:36-50 | the primary admin afterwards is the oldest one, or the oldest user when there was none |
| PrimaryAdminBackfill.FixpointIsSettled | scripts/migrations/backfill_user_hierarchy_primary_admin.js:51-72 | a run changes nothing if and only if every user carries only the tags of its role |
| PrimaryAdminBackfill.OneRunSettles | scripts/migrations/backfill_user_hierarchy_primary_admin.js:59-69 | the second run changes nothing if and only if the first demotes nobody who carries tags |
| PrimaryAdminBackfill.SecondRunIsTheLast | scripts/migrations/backfill_user_hierarchy_primary_admin.js:24-72 | any number of runs from two on gives the same settled firm |
| PrimaryAdminBackfill.FirstRunMayNotSettle | scripts/migrations/backfill_user_hierarchy_primary_admin.js:59-66 | a firm the second run still changes |
| EffortLedger.Ledger.CreateDocketEffort | src/controllers/docketEffort.controller.js:25-76 | reply and new books for each refusal and for success |
| EffortLedger.Ledger.DeleteDocketEffort | src/controllers/docketEffort.controller.js:164-219 | reply and new books for each refusal and for success |
| EffortLedger.TotalsAreSums | src/controllers/docketEffort.controller.js:57-76 | over any run of creations and deletions from zero each total is the sum of its live entries |
| EffortLedger.DeleteNeverClamps | src/controllers/docketEffort.controller.js:164-219 | on sound books the lower bound of zero is never reached |
| EffortLedger.CreateThenDelete | src/controllers/docketEffort.controller.js:57-219 | deleting the entry just created restores the books |
| EffortLedger.RunCreateThenDelete | src/controllers/docketEffort.controller.js:57-219 | likewise at the end of any run, after the creation has added its entry |
| EffortLedger.CreateIsTold | src/controllers/docketEffort.controller.js:25-76 | each reply to a creation, the one entry added, and the one total that grows, by its minutes |
| EffortLedger.DeleteIsTold | src/controllers/docketEffort.controller.js:164-219 | each reply to a deletion, the one entry removed, and the one total that falls, by its minutes |
| EffortLedger.NeverNegative | src/controllers/docketEffort.controller.js:183-183 | on any books, a deletion leaves the difference, or zero where that would be negative |
| EffortReports.MapAgreesWithSearch | src/controllers/docketEffort.controller.js:328-334 | the docket map answers every look-up as a linear search would |
| EffortReports.EntryLabel | src/controllers/docketEffort.controller.js:338-347 | an entry counts with its minutes under its docket's client, or under the general label when the docket is unknown or has none |
| EffortReports.DocketLabel | src/controllers/docketEffort.controller.js:352-377 | a docket counts with its actual and expected minutes under its service line, or as OTHER without one |
| EffortReports.VarianceExactly | src/controllers/docketEffort.controller.js:379-386 | a row's variance is what the actual minutes exceed the expected ones by, and its means are to the nearest minute, halves upwards |
| EffortReports.ClientSummary | src/controllers/docketEffort.controller.js:328-343 | one group per client label with the minutes and number of its entries, by falling minutes |
| EffortReports.ServiceLineSummary | src/controllers/docketEffort.controller.js:345-355 | one group per service line with its minutes and dockets, by falling minutes |
| EffortReports.ObligationVariance | src/controllers/docketEffort.controller.js:357-385 | one row per service line with totals, variance and rounded means |
| EffortReports.GroupsKeepTotals | src/controllers/docketEffort.controller.js:331-355 | any such grouping adds up to its items, in minutes and in number |
| EffortReports.ReportTotals | src/controllers/docketEffort.controller.js:304-387 | on sound books the three groupings of a firm all add up to the minutes logged in it, and count every entry and docket |
| EffortReports.ProfitabilityReport | src/controllers/docketEffort.controller.js:287-387 | the whole report after any run of creations and deletions |
| SingleFlight.Coalescer.LoadCaseRecord | src/controllers/case.controller.js:63-89 | a call joins the load of its key or starts one, and returns its promise |
| SingleFlight.Coalescer.CleanUpLoad | src/controllers/case.controller.js:83-85 | a finished load leaves the map and hands out its outcome |
| SingleFlight.MapIsExact | src/controllers/case.controller.js:61-89 | in every reachable state the map's keys are exactly the unfinished loads' and each caller waits for a load of its key |
| SingleFlight.OneLoadPerKey | src/controllers/case.controller.js:64-67 | two unfinished loads never share a key |
| SingleFlight.EmptyWhenAllFinished | src/controllers/case.controller.js:83-87 | the map is empty if and only if every load has finished |
| SingleFlight.CleanUpRemovesItsOwn | src/controllers/case.controller.js:83-85 | a clean-up removes its own entry and no other |
| SingleFlight.ArrivalStartsOnlyWhenNeeded | src/controllers/case.controller.js:64-89 | an arrival starts a load if and only if none is unfinished for its key |
| SingleFlight.ServedByOwnLoad | src/controllers/case.controller.js:63-89 | each caller receives the outcome of a load of its own firm and trimmed id that was unfinished when it arrived |
| SingleFlight.OutcomeIsKept | src/controllers/case.controller.js:63-89 | that outcome is what the load's own queries gave, whatever happened since |
| SingleFlight.KeysCollideExactly | src/controllers/case.controller.js:64-64 | two firms' keys can coincide if and only if one firm id continues the other with a colon and no white space after it |

## Left out

- XLSX files, the job queue, previews and the completion event of the bulk import.
- Non-ASCII case folding: `Lower` folds A to Z only. The header normalisation is an arbitrary function.
- The fields written for each imported client or team member, and the per-row results of a category import, which never batches.
- Which rows of a partly failed bulk write really failed: the code itself only approximates it.
- Category writes that fail, and concurrent imports: the import results assume every write succeeds.
- The Redis path of the cooldown lock; bcrypt, hashing and signatures, which become equality, an injective name and an outcome given with the call.
- The firm scope of the setup-token query: the tokens of the state are those the query can see. The rate limit on resends and the firm's own activation are left out.
- A successful login between failures, and the removal of the account during a failure. One synchronous stretch of the lockout handler reads the clock once.
- Setting a password through account setup, which does not touch the password history.
- Two overlapping client status verifications: calls run one at a time, as the identifier look-up between check and recording is the only `await`.
- The single use of the Google code exchange, which the code does not establish, as it ignores the result of its update.
- The tree's nodes as shared mutable objects: they are values here, assembled from lists kept by id. Names, addresses and statuses of a node are left out.
- The user document's own validation during a hierarchy update is an outcome given from outside.
- Creating a client's identifier, and a firm removed while the migration runs. The migration matches the literal role `Admin`; the model's admins are the users that match.
- The loop over firms of the primary-admin backfill: firms share no users, so the per-firm body is modelled.
- Reports with restricted clients, the budget list, the order of groups with equal minutes, and the effect of integer-like labels on that order.
- The role of the caller of a case load: it is passed on to the queries but is not part of the key, so callers share what the first caller's role loads.
- Docket lifecycle, routing, approval, compliance and AI logic, and the plain create-read-update-delete controllers, which delegate or would only add easy members.
- ActivityFeed.PagesAreAPrefix: takes all queries to order rows of equal time alike, which the sort does not promise; `ActivityPages.RowsFixedExactly` says which pages do not depend on it.
