# RecrutTrack core, modelled in Dafny

RecrutTrack is a small recruitment tracker. Positions are openings at companies. Candidates are
people looking for work. A referral links one candidate to one position and carries a status
("Referred", "Interviewing", "Hired", "Rejected") and, once Hired, a fee.

This project models:

- **The in-memory store** (`MemStorage`, `Storage` module, `storage.dfy`). It holds five tables
  keyed by id, each with its own counter. Operations:
  - create, read, merge-update and delete;
  - the delete guard: a position or candidate that a referral points at is not deleted;
  - the audit log. Creating or deleting a position or candidate logs an entry, and so does a real
    change of its status. A referral's creation and deletion are logged only when both its
    candidate and its position exist. A referral's own status change is not logged. Creating a
    user logs nothing;
  - the hire cascade. It fires whenever an update moves a referral from a status other than
    "Hired" to "Hired" with a truthy fee, and its candidate exists. So Hired, then Rejected, then
    Hired again fires it twice. The cascade logs the fee and moves the candidate to "Placed";
  - the activity feed, newest first and cut to a limit;
  - the dashboard counts and fee total.

  The store is a `class` whose methods update its maps and counters. Each method states its whole
  new state, and `Valid()` is the invariant it keeps: every record sits under its own id, below
  the counter that hands out the next one.
- **The pagination strip** (`Pagination`, `pagination.dfy`): the "Showing x to y" range, the page
  buttons with their gap markers, and when Previous and Next are disabled. The button list is
  built in a loop (`PageNumbers`) and proved equal to a specification function (`Strip`). Lemmas
  about `Strip` show that:
  - the buttons are increasing;
  - the current page is always present;
  - every gap between two buttons carries a marker;
  - no marker stands for an empty gap.
- **Display helpers** (`Format`, `format.dfy`): `formatAvailability` and `formatList`.
- **The list pages.** Modules `CandidatesPage`, `ReferralsPage` and `PositionsPage` model:
  - the search and filter predicates;
  - the de-duplicated lists the filters offer (skills, companies, locations);
  - the nine-per-page slicing of the candidates page;
  - the referral status payload and the referrals page's totals, tied to the store's own rules.
- **A walk-through** (`Scenario`, `scenario.dfy`). On a fresh store holding one open position, one
  looking candidate and a referral, marking the referral Hired with a fee of 25000 changes the
  dashboard from (1, 1, 1, 0) to (1, 0, 1, 25000) and places the candidate.

Shared pieces:

- `Wrappers`: Option and JavaScript truthiness.
- `Seqs`: filter, first-occurrence de-duplication and `slice`.
- `Text`: lower-casing, `includes`, `split`/`join`, `trim` and number printing.
- `Schema`: the records, their inputs and their partial update payloads.

Behaviour of the code that a reader might not expect:

- **Status of a new referral.** `createReferral` copies the status from its input. It does not
  force "Referred" (`server/storage.ts:479-493`).
- **Logging a new referral.** `referral_created` is logged only when both the candidate and the
  position exist (`server/storage.ts:500-510`). Nothing checks that they exist.
- **Blocked deletes.** A blocked delete returns the same `false` as a missing record
  (`server/storage.ts:353-363`, `430-441`). It is not a distinct "has dependents" outcome.
- **Monthly figures.** The dashboard's monthly figures are the constants 3, 5, 12 and 3200
  (`server/storage.ts:624-629`). They are not counts over a trailing window.

## Model

| member | source | states |
|---|---|---|
| Storage.MemStorage.constructor | server/storage.ts:71-86 | every table is empty and every id counter starts at 1; the store is valid |
| Storage.MemStorage.GetUserById | server/storage.ts:94-96 | a user is returned exactly when the id is stored, and it is the stored record |
| Storage.MemStorage.UserList | server/storage.ts:89-92 | every stored user once, each under its own id, in increasing id (insertion) order |
| Storage.FindByEmail | server/storage.ts:89-92 | `find` returns a user whose e-mail matches ignoring case, with no match before it; or nothing when no user matches |
| Storage.FoundIsFirst | server/storage.ts:89-92 | over the users in id order, the user found is stored under its id and no user with a smaller id matches |
| Storage.NoneFound | server/storage.ts:89-92 | when `find` finds nothing, no stored user's e-mail matches |
| Storage.MemStorage.GetUserByEmail | server/storage.ts:89-92 | the result is the stored user with the smallest id whose e-mail equals the query ignoring case; none exactly when no e-mail matches |
| Storage.MemStorage.CreateUser | server/storage.ts:98-111 | the new user takes the next id, has no last login and was created now; only the users table and its counter change; nothing is logged |
| Storage.MemStorage.UpdateUserLastLogin | server/storage.ts:113-119 | a stored user's last login becomes now and nothing else changes; an unknown id changes nothing |
| Storage.MemStorage.CreateActivity | server/storage.ts:584-594 | the entry takes the next activity id and a timestamp defaulting to now; the log grows by exactly that entry; no table changes |
| Storage.AppendedKeepsLog | server/storage.ts:584-594 | appending entries keeps every earlier entry unchanged and adds exactly the new ones under consecutive fresh ids |
| Storage.AppendedConcat | server/storage.ts:584-594 | appending two batches one after the other is appending them together |
| Storage.MemStorage.ActivityLog | server/storage.ts:578 | every logged entry once, in increasing id order |
| Storage.InsertNewestSorted | server/storage.ts:578-579 | inserting into a newest-first list keeps it newest first |
| Storage.SortNewestFirst | server/storage.ts:578-579 | the sort is newest first and a permutation of the log |
| Storage.PrefixKeepsNewest | server/storage.ts:581 | cutting the sorted log keeps entries at least as new as every entry cut away |
| Storage.Feed | server/storage.ts:577-582 | the feed is newest first, takes entries only from the log, is the whole log when the limit is not truthy, holds `min(limit, n)` entries for a positive limit and `max(n + limit, 0)` for a negative one, and no entry left out is newer than one shown |
| Storage.MemStorage.GetAllActivities | server/storage.ts:577-582 | the feed over the store's log: newest first; every entry shown is a logged entry under its own id; without a truthy limit every logged entry is shown; with a positive limit, `min(limit, number of entries)` are shown |
| Storage.MemStorage.GetPosition | server/storage.ts:302-304 | a position is returned exactly when the id is stored, and it is the stored record |
| Storage.MemStorage.GetAllPositions | server/storage.ts:298-300 | every stored position once, under its own id, in increasing id order |
| Storage.InIdOrderLists | server/storage.ts:298-300 | over a table whose records sit under their ids, `Array.from(values())` lists every record once in increasing id order |
| Storage.MemStorage.CreatePosition | server/storage.ts:306-327 | the new position takes the next id and a `dateAdded` defaulting to now; only the positions table and its counter change; one `position_added` entry is logged |
| Storage.MergePositionExact | server/storage.ts:336 | the merge takes every field the payload supplies, and leaves the record unchanged exactly when the record already agrees with the payload |
| Storage.MemStorage.UpdatePosition | server/storage.ts:329-351 | an unknown id changes nothing and returns none; otherwise the merged record replaces the stored one, and a `position_updated` entry is logged exactly when the payload carries a non-empty status different from the stored one |
| Storage.MemStorage.DeletePosition | server/storage.ts:353-377 | the delete succeeds exactly when the position exists and no referral points at it; a refused delete changes nothing; a successful one removes only that position and logs one `position_deleted` |
| Storage.MemStorage.GetCandidate | server/storage.ts:384-386 | a candidate is returned exactly when the id is stored, and it is the stored record |
| Storage.MemStorage.GetAllCandidates | server/storage.ts:380-382 | every stored candidate once, under its own id, in increasing id order |
| Storage.MemStorage.CreateCandidate | server/storage.ts:388-404 | the new candidate takes the next id; only the candidates table and its counter change; one `candidate_added` entry is logged |
| Storage.MergeCandidateExact | server/storage.ts:413 | the merge takes every field the payload supplies, and leaves the record unchanged exactly when it already agrees with the payload |
| Storage.MemStorage.UpdateCandidate | server/storage.ts:406-428 | an unknown id changes nothing and returns none; otherwise the merged record replaces the stored one, and `candidate_updated` is logged exactly when the status really changes |
| Storage.MemStorage.DeleteCandidate | server/storage.ts:430-454 | the delete succeeds exactly when the candidate exists and no referral points at it; a refused delete changes nothing; a successful one removes only that candidate and logs one `candidate_deleted` |
| Storage.MemStorage.GetReferral | server/storage.ts:466-477 | a referral is returned exactly when the id is stored; it carries the stored record, and its candidate and position are the stored records under its ids, or none where no such record exists |
| Storage.MemStorage.ReferralList | server/storage.ts:458 | every stored referral once, under its own id, in increasing id order |
| Storage.MemStorage.GetAllReferrals | server/storage.ts:457-464 | one row per stored referral, in id order; each row joins its referral with the stored candidate and position under its ids, or none where no such record exists |
| Storage.NewReferral | server/storage.ts:479-493 | the new referral keeps the input's ids, status, notes and fee; `referralDate` defaults to now, `mode` to "Placement" and `feeType` to "OneTime" when not truthy; `feeMonths` is kept only when truthy |
| Storage.MemStorage.CreateReferral | server/storage.ts:479-514 | the new referral takes the next id with the creation defaults; only the referrals table and its counter change; `referral_created` is logged exactly when both the candidate and the position exist |
| Storage.MergeReferralExact | server/storage.ts:523 | the merge takes every field the payload supplies, and leaves the record unchanged exactly when it already agrees with the payload |
| Storage.MemStorage.PlaceCandidate | server/storage.ts:532-545 | the cascade logs the fee entry, then moves the candidate to "Placed"; `candidate_updated` follows only when the candidate was not already Placed; nothing else changes |
| Storage.MemStorage.UpdateReferral | server/storage.ts:516-549 | an unknown id changes nothing; otherwise the merged referral is stored. When the payload moves a referral that was not Hired to "Hired" with a truthy fee and its candidate exists, the candidate becomes "Placed" and exactly the fee entry, plus a `candidate_updated` when the status changed, is logged; otherwise no other table changes and nothing is logged |
| Storage.MemStorage.DeleteReferral | server/storage.ts:551-574 | the delete succeeds exactly when the referral exists, with no guard; only that referral is removed; `referral_deleted` is logged exactly when both linked records still exist |
| Storage.CountOpen | server/storage.ts:610 | `filter(status === "Open").length` over the positions equals the number of stored positions that are Open |
| Storage.CountLooking | server/storage.ts:611 | `filter(status === "Looking").length` over the candidates equals the number of stored candidates that are Looking |
| Storage.CountInIdOrder | server/storage.ts:610-611 | counting the records of a table that pass a test, in id order, counts the keys whose record passes it |
| Storage.FeeTotalIsFilterReduce | server/storage.ts:614-616 | the fee rule, summed per referral, is the filter-then-reduce the dashboard writes |
| Storage.FeeTotalUpdate | server/storage.ts:614-616 | replacing one referral moves the total by exactly the change in what that referral contributes |
| Storage.FeeTotalIgnoresUnpaid | server/storage.ts:614-616 | changing the fee of a referral that is not Hired never moves the total |
| Storage.FeesAfterStore | server/storage.ts:523 | storing a referral over a stored one moves the table's fee total by exactly the difference in their contributions |
| Storage.MemStorage.GetDashboardStats | server/storage.ts:597-631 | open positions and active candidates are the sizes of the sets of stored Open positions and Looking candidates; referrals made is the table size; fees earned is the fee total; the monthly figures are 3, 5, 12 and 3200 |
| Text.NatToStringValue | server/storage.ts:537 | the digits printed for a fee in the fee entry read back as the fee |
| Scenario.DashboardOfOne | server/storage.ts:597-631 | with one record in each table, the dashboard counts that record according to its status and fee |
| Scenario.SetUp | server/storage.ts:306-327 | creating a position, a candidate and a referral on a fresh store stores them under id 1; the dashboard then reads (1, 1, 1, 0) |
| Scenario.MarkHired | server/storage.ts:516-549 | marking the referral Hired with a non-zero fee places the candidate, books the fee, and leaves the position alone |
| Scenario.HireWalkThrough | server/storage.ts:516-549 | across the hire, the dashboard goes from (1, 1, 1, 0) to (1, 0, 1, 25000) and the candidate ends "Placed" |
| Pagination.ShowingRange | client/src/components/ui/pagination.tsx:19-20 | on a page that holds items, the range shown starts at 1 or later, ends within the items, and spans at most one page |
| Pagination.PageNumbers | client/src/components/ui/pagination.tsx:22-50 | the pushed list equals the strip specification |
| Pagination.RunIndex | client/src/components/ui/pagination.tsx:38-43 | the run of pages from `start` holds `start + i` at position `i` |
| Pagination.StripSmall | client/src/components/ui/pagination.tsx:25-29 | with at most five pages, the strip is the pages 1..n in order, without markers |
| Pagination.StripLarge | client/src/components/ui/pagination.tsx:30-50 | with more than five pages, the strip starts at 1 and ends at the last page; the left marker appears exactly past page 3, and the right one exactly more than two pages before the end |
| Pagination.StripWellFormed | client/src/components/ui/pagination.tsx:22-50 | for a current page in range, the strip has at most seven entries; it holds the current page; its buttons are valid pages in increasing order; neighbouring buttons are consecutive pages; every marker stands for at least one page left out |
| Pagination.StepStaysInRange | client/src/components/ui/pagination.tsx:66-105 | from a page in range, an enabled Previous or Next leads to a page in range, and a disabled one would have left the range |
| Format.FormatAvailability | client/src/lib/utils/format.ts:39-51 | any value other than the four codes is shown as it is |
| Format.AvailabilityRelabels | client/src/lib/utils/format.ts:39-51 | a value is relabelled exactly when it is one of the four codes, and distinct codes get distinct labels |
| Format.FormatList | client/src/lib/utils/format.ts:57-65 | no items give the empty text and one item gives that item |
| Format.FormatListPair | client/src/lib/utils/format.ts:57-65 | two items are joined by " and " alone |
| Format.FormatListCons | client/src/lib/utils/format.ts:57-65 | from three items on, the text is the first item, ", " and the text of the rest |
| Format.FormatListLength | client/src/lib/utils/format.ts:57-65 | the text holds every item's characters, two per ", " between leading items and five for " and " |
| Format.FormatListEnds | client/src/lib/utils/format.ts:57-65 | the text starts with the first item and ends with the last |
| CandidatesPage.FilteredCandidates | client/src/pages/candidates.tsx:139-163 | the kept candidates are exactly those passing every filter, in their original order |
| CandidatesPage.NoFiltersKeepAll | client/src/pages/candidates.tsx:139-163 | with an empty query and every filter on "all", every candidate is kept |
| CandidatesPage.EmptySearchShortCut | client/src/pages/candidates.tsx:141-145 | the empty-query test is only a short cut: the search matches exactly when the query occurs in the name, the e-mail or the role |
| CandidatesPage.TrimmedPieceIsTag | client/src/pages/candidates.tsx:167-168 | a trimmed piece of a comma split holds no comma and is already trimmed |
| CandidatesPage.SkillsOf | client/src/pages/candidates.tsx:167-168 | every skill of a candidate is a tag: no comma and no surrounding white space |
| CandidatesPage.SkillPieces | client/src/pages/candidates.tsx:166-168 | the flattened list holds every candidate's skills and nothing else |
| CandidatesPage.AllSkills | client/src/pages/candidates.tsx:166-169 | the offered skills have no duplicates; they are all tags; they are exactly the candidates' skills; they come in order of first occurrence |
| Text.SplitJoin | client/src/pages/candidates.tsx:167 | splitting on a separator what was joined with it gives the parts back |
| Text.Split | client/src/pages/candidates.tsx:167 | `split` gives at least one piece; no piece holds the separator; joining the pieces with it gives the text back |
| Text.Includes | client/src/pages/candidates.tsx:141-145 | `includes` holds exactly when the query occurs at some position of the text |
| Text.TrimIdempotent | client/src/pages/candidates.tsx:168 | trimming twice is trimming once |
| CandidatesPage.TotalPages | client/src/pages/candidates.tsx:172 | the page count is the least number of nine-card pages that hold the list |
| CandidatesPage.PaginationShown | client/src/pages/candidates.tsx:200-223 | there is more than one page exactly when there are more than nine matches; the strip, which sits inside the branch that shows cards, is drawn exactly when there are more than nine matches and the current page is in range |
| CandidatesPage.PageContents | client/src/pages/candidates.tsx:173-176 | page p is the stretch of the list from card 9(p-1), cut at the end: at most nine cards, in order |
| CandidatesPage.PastLastPage | client/src/pages/candidates.tsx:173-176 | a page past the last one is empty |
| CandidatesPage.PageInRangeNonEmpty | client/src/pages/candidates.tsx:173-176 | a page in range holds at least one card |
| CandidatesPage.PageMatchesShowing | client/src/pages/candidates.tsx:173-176 | the number of cards on a page is the count the strip reports as "Showing x to y" |
| CandidatesPage.PagesCoverList | client/src/pages/candidates.tsx:172-176 | the pages in order make up the whole list, losing and repeating nothing |
| CandidatesPage.StalePageHidesMatches | client/src/pages/candidates.tsx:22 | the page is kept when a filter narrows the list: from a page past the first, a list of at most nine matches shows no card and no strip |
| CandidatesPage.VisiblePage | client/src/pages/candidates.tsx:172-176 | the corrected page lies in `1..TotalPages` and is the current page whenever that page is in range |
| CandidatesPage.ShownCardsNonEmpty | client/src/pages/candidates.tsx:172-176 | with the page kept in range, cards are shown exactly when some candidate matches, and the strip is drawn exactly when there are more than nine matches |
| ReferralsPage.StatusUpdatePayload | client/src/pages/referrals.tsx:92-98 | the payload always carries the status; it carries the fee exactly when the new status is "Hired" and the fee is truthy; it carries nothing else |
| ReferralsPage.PayloadCascade | client/src/pages/referrals.tsx:92-98 | sent to the store, the payload sets off the hire cascade exactly when the status is "Hired", the fee is truthy, the referral was not Hired and its candidate exists |
| ReferralsPage.FilteredReferrals | client/src/pages/referrals.tsx:101-138 | the kept rows are exactly those passing every filter, in their original order |
| ReferralsPage.DateRanges | client/src/pages/referrals.tsx:120-135 | any date choice other than the three ranges keeps every row, and the 90-day range keeps every row the 30-day range keeps |
| ReferralsPage.NoFiltersKeepAll | client/src/pages/referrals.tsx:101-138 | with an empty query and every filter on "all", every row is kept, whatever the date cut-offs |
| ReferralsPage.TotalFeesIsFeeTotal | client/src/pages/referrals.tsx:143-145 | the page's fee total is the store's fee rule over the same referrals |
| ReferralsPage.SameTotalAsDashboard | client/src/pages/referrals.tsx:143-145 | shown for the store's referrals, the page's fee total equals the dashboard's `feesEarned` |
| ReferralsPage.NoHireNoFees | client/src/pages/referrals.tsx:141-145 | with no Hired referral, the fee total is 0 whatever fees the others carry |
| ReferralsPage.FeeTotalOfUnhired | client/src/pages/referrals.tsx:143-145 | referrals none of which is Hired contribute nothing to the fee total |
| ReferralsPage.SuccessfulReferrals | client/src/pages/referrals.tsx:142 | the count is at most the number of rows; it is 0 exactly when no row is Hired, and the number of rows exactly when every row is Hired |
| ReferralsPage.Companies | client/src/pages/referrals.tsx:148 | each company of a row appears once, nothing else does, and they come in order of first appearance |
| PositionsPage.FilteredPositions | client/src/pages/positions.tsx:125-149 | the kept positions are exactly those passing every filter, in their original order |
| PositionsPage.NoFiltersKeepAll | client/src/pages/positions.tsx:125-149 | with an empty query and every filter on "all", every position is kept |
| PositionsPage.CompanyFilterSelects | client/src/pages/positions.tsx:138-141 | picking a company keeps a position exactly when its company equals the choice ignoring case |
| PositionsPage.Companies | client/src/pages/positions.tsx:152 | each company appears once, nothing else does, and they come in order of first appearance |
| PositionsPage.Locations | client/src/pages/positions.tsx:153 | each location appears once, nothing else does, and they come in order of first appearance |

## Left out

- Asynchrony: every store operation is `async`. The model runs each one to completion as one atomic step.
- Storage.MemStorage.constructor: the sample records that `seedData` inserts are not modelled, so the model starts from empty tables. The seed goes through the same counters.
- Time: each operation takes the current instant as a parameter, `now`. All `new Date()` calls inside one operation read the same instant. Dates are whole numbers on an abstract clock.
- ReferralsPage.DateRanges: the three cut-offs (30 days ago, 90 days ago, 1 January) are parameters. They are not computed from a calendar.
- Money, salaries and fees are whole numbers. Fractional amounts and JavaScript's floating point are left out.
- Text.NatToStringValue covers whole numbers only. JavaScript's printing of fractions, exponents and `NaN` is left out.
- Partial update payloads: a field left out is `None`. A key that is present with the value `undefined` (which the spread copies) is not modelled.
- Storage.MemStorage.CreatePosition: an input without `status` is not modelled. The insert schema allows one, because the column has a default (`shared/schema.ts:14`), and MemStorage sets no default, so it would store a position with no status. The position form always sends one (`client/src/components/modals/position-modal.tsx:57`).
- Storage.MemStorage.CreateCandidate: an input without `status` is not modelled. The insert schema allows one (`shared/schema.ts:33`), and MemStorage would store a candidate with no status. The candidate form always sends one (`client/src/components/modals/candidate-modal.tsx:56`).
- Storage.MemStorage.CreateReferral: an input without `status` is not modelled. The insert schema allows one (`shared/schema.ts:46`), and MemStorage would store a referral with no status. The referral form always sends one (`client/src/components/modals/referral-modal.tsx:63`).
- Storage.MemStorage.UpdateUserLastLogin: the source mutates the shared user object in place. The model replaces the record in the map, so aliasing with earlier readers is not modelled.
- Storage.SortNewestFirst: the order of entries with equal timestamps (sort stability) is not stated.
- Storage.Feed: the limit is an integer. Fractional limits are left out.
- Lower-casing (`toLowerCase`) covers ASCII letters only. Unicode case mapping is left out.
- ReferralsPage.FilteredReferrals: a row always carries its candidate and position, because the page reads both without a check. Rows whose candidate or position is missing, on which the page would fail, are not modelled.
- Storage.MemStorage.GetDashboardStats, Storage.MemStorage.GetUserByEmail and the listing functions require the store invariant `Valid()`. Every operation keeps it.
- The other helpers in `client/src/lib/utils/format.ts` (`formatDate`, `formatCurrency`, `formatNumber`) rely on the platform's locale formatting. They are not part of this model.
- The PostgreSQL store (`server/storage-pg.ts`), the HTTP routes, authentication and everything the pages render are not part of this model.

## Findings

| source | as written | input that shows it | evidently intended | confidence | as-written member | corrected member |
|---|---|---|---|---|---|---|
| client/src/pages/candidates.tsx:22 | `currentPage` is never reset or clamped when a filter changes, and the page shows `slice((currentPage - 1) * 9, currentPage * 9)` of the new list | 12 candidates, user on page 2, then a search that matches one candidate: the slice is empty, so the page says no candidate matches; with one page the strip is not drawn, so there is no way back to page 1 | the page shown is moved back into `1..totalPages` (or reset to 1) when the list changes | not executed | CandidatesPage.StalePageHidesMatches | CandidatesPage.ShownCardsNonEmpty |
