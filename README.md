# Bus booking: the seat ledger and the client-side selection logic

This project models a bus-ticket booking application.

- **The seat ledger** is the core. Each schedule row keeps `available_seats` and a list `booked_seats` of seat strings. `POST /api/bookings` claims seats: it normalises the request's `seat_numbers`, checks for a conflict, checks capacity, appends the seats to the ledger and inserts a confirmed booking. `PATCH /api/bookings/:id/cancel` releases them: it splits the booking's stored text, filters the ledger and raises the counter.
- **Schedule creation** (`POST /api/schedules`) expands a date range into one full, empty schedule per day.
- **Seat picker.** The `SeatLayout` picker toggles seats, and booked seats are immune to toggling. Its 70-cell grid shows each cell as a gap, or as a booked, selected or available seat.
- **Layout designer.** The bus layout designer converts between a 70-cell boolean grid and the list of active indices. It also flips single cells.
- **Selection editing.** The schedule filter panel edits lists of selected dates and routes by toggling. The booking cancel dialog edits a list of selected seats the same way.
- **Filter pipelines.** Two staged pipelines filter lists: the generic `useFilteredData` hook and the admin `filterBookings`. Both use a date-normalisation fast path.

## Structure

Modules follow the program:

- `Lists` and `Text` give JavaScript built-ins their meaning:
  - `filter`, `includes` and the toggle updater;
  - `split`, `join`, `trim`, `toLowerCase`, `includes` on strings, and `Number.prototype.toString`.
- `JsValues` models the loosely typed values the filters compare: truthiness and `String(v)`.
- `Dates` models the two date normalisers.
- `Ledger` holds the handlers as written:
  - the pure steps `ClaimStep` and `CancelStep` on a `Db` value;
  - the class `BookingDb`, whose `Claim` and `Cancel` methods update its `schedules` and `bookings` fields in place, each proved equal to its step.
- `LedgerFixes` holds:
  - concrete runs that show three ways the ledger drifts from the bookings;
  - corrected handlers, with a consistency invariant proved for them.
- `ScheduleCreation`, `SeatPicker`, `LayoutDesigner`, `ScheduleFilterPanel`, `FilteredData`, `BookingFilter` and `CancelModal` follow the corresponding source files.
  - Three loops of the source become `while` loops with invariants: the per-day insertion loop, the `reduce` over the saved layout and the run over the extra filters.
  - The designer's cell click is an array copy followed by the flip of one cell.
  - `filterBookings` is four conditional reassignments of the list, each a filter.

## Where the handlers and their callers disagree

The model follows the handlers in each case:

- **Partial cancellation.** The cancel dialog sends `seats_to_cancel` with the selected seats (`frontend/src/components/BookingCancelModal.jsx:37-51`). The handler never reads the request body and always cancels the whole booking (`CancelModal.PartialIsWhole`).
- **Double cancel.** The admin page offers Cancel only while `booking_status === 'confirmed'` (`frontend/src/pages/admin/BookingManagement.jsx:187`). The handler does not look at `booking_status` and releases the seats again (`Ledger.CancelTwice`; the Findings row whose as-written member is `LedgerFixes.DoubleCancelReleasesTwice`).
- **Empty seat list.** The route booking page refuses an empty selection before sending (`frontend/src/pages/user/Routes.jsx:48`). The handler accepts an empty array (the Findings row whose as-written member is `LedgerFixes.EmptyClaimCancelReleasesSeat`).
- **Error handling.** Every handler failure is one error with a message. The model has one `Error` constructor per message and no HTTP status codes.

## Model

| member | source | states |
|---|---|---|
| Lists.Filter | frontend/src/hooks/useFilteredData.js:33-36 | `filter` keeps only accepted elements and never lengthens the list |
| Lists.FilterMembership | frontend/src/hooks/useFilteredData.js:29-83 | a value is in the filtered list iff it is in the list and accepted |
| Lists.FilterCount | frontend/src/hooks/useFilteredData.js:29-83 | filtering keeps every occurrence of an accepted value and none of a rejected one |
| Lists.FilterAppend | backend/routes/bookings.js:62-100 | filtering distributes over concatenation, so line 100's release over the ledger that line 62 extended splits into the old ledger and the appended seats |
| Lists.FilterKeepsAll | frontend/src/hooks/useFilteredData.js:32-56 | a filter that accepts every element returns the list unchanged |
| Lists.FilterAgrees | frontend/src/hooks/useFilteredData.js:29-83 | predicates agreeing on the elements filter alike |
| Lists.FilterTwice | frontend/src/pages/admin/BookingManagement.jsx:72-98 | two successive filters equal one filter by the conjunction |
| Lists.FilterThen | frontend/src/hooks/useFilteredData.js:29-83 | two successive filters equal one filter by any predicate equal to their conjunction |
| Lists.FilterIdempotent | backend/routes/bookings.js:100 | filtering twice by one predicate is filtering once, so a second cancel's run of line 100 leaves the ledger as the first left it |
| Lists.FilterIsSubsequence | frontend/src/hooks/useFilteredData.js:29-83 | the filtered list is an order-preserving subsequence |
| Lists.SubsequenceReflexive | frontend/src/hooks/useFilteredData.js:29 | a list is a subsequence of itself, so the unfiltered copy `[...data]` is an ordered selection of the data |
| Lists.SubsequenceMembers | frontend/src/pages/admin/BookingManagement.jsx:72-98 | every element of a subsequence comes from the list |
| Lists.RemoveAllSpec | frontend/src/components/ScheduleFilter.jsx:53-59 | `filter(x => x !== v)` removes every `v`, keeps every other value's count and keeps the order |
| Lists.ToggleMembership | frontend/src/components/ScheduleFilter.jsx:34-40 | the toggle flips membership of the toggled value and of no other |
| Lists.ToggleShape | frontend/src/components/ScheduleFilter.jsx:34-40 | toggling appends an absent value; it deletes a present one and keeps the rest in order with their counts |
| Lists.ToggleTwice | frontend/src/components/ScheduleFilter.jsx:34-50 | toggling an absent value twice restores the list |
| Lists.FilterNoDuplicates | frontend/src/components/ScheduleFilter.jsx:36 | filtering keeps a duplicate-free list duplicate-free |
| Lists.RemoveAllNoDuplicates | frontend/src/components/ScheduleFilter.jsx:53-59 | removal keeps a duplicate-free list duplicate-free |
| Lists.ToggleNoDuplicates | frontend/src/components/ScheduleFilter.jsx:34-50 | toggling keeps a duplicate-free list duplicate-free |
| Text.Split | backend/routes/bookings.js:92 | `split(',')` gives at least one piece, none containing the separator |
| Text.SplitWithoutSeparator | backend/routes/bookings.js:92 | a text without the separator splits into itself alone |
| Text.SplitWithSeparator | frontend/src/components/BookingCancelModal.jsx:9 | a text with the separator splits into at least two pieces |
| Text.SplitAtSeparator | backend/routes/bookings.js:92 | splitting stops at the first separator |
| Text.SplitJoin | backend/routes/bookings.js:59-92 | joining at least one comma-free piece and splitting again returns the pieces |
| Text.SplitEmpty | backend/routes/bookings.js:92 | `"".split(',')` is `[""]`, not `[]` |
| Text.TrimStartSpec | backend/routes/bookings.js:39 | the start trim removes exactly the longest whitespace prefix: every removed character is whitespace and the rest does not start with whitespace |
| Text.TrimEndSpec | backend/routes/bookings.js:39 | the end trim removes exactly the longest whitespace suffix: every removed character is whitespace and the rest does not end with whitespace |
| Text.TrimUnchanged | backend/routes/bookings.js:39 | `trim` leaves a string with no whitespace at either end unchanged |
| Text.TrimEnds | backend/routes/bookings.js:39 | a trimmed string has no whitespace at either end |
| Text.TrimKeepsOut | backend/routes/bookings.js:39 | trimming introduces no character, so no separator |
| Text.ContainsAt | frontend/src/hooks/useFilteredData.js:65 | `includes` holds iff the term occurs at some position |
| Text.DigitChar | backend/routes/bookings.js:47 | the digit value `d` is written as the character `'0' + d` |
| Text.NatToString | backend/routes/bookings.js:47-62 | a natural number is written with at least one digit and only digits |
| Text.NatToStringValue | backend/routes/bookings.js:47-62 | reading the decimal form of a natural number gives the number back |
| Text.IntToStringValue | backend/routes/bookings.js:47-62 | reading the written form of an integer, minus sign included, gives the integer back |
| Text.IntToStringInjective | backend/routes/bookings.js:47-62 | distinct seat numbers are written as distinct seat strings |
| Text.IntToString | backend/routes/bookings.js:47-62 | an integer is written in digits with an optional leading minus |
| Text.IntToStringPlain | backend/routes/bookings.js:59-92 | a written number has no comma and no whitespace at either end |
| JsValues.FalsyValues | frontend/src/hooks/useFilteredData.js:56 | a value is falsy iff it is undefined, null, false, 0 or the empty string |
| Dates.NormalizeCases | frontend/src/hooks/useFilteredData.js:4-17 | falsy input gives `''`, a YYYY-MM-DD string passes through, an unparseable date gives `''` |
| Dates.NormalizeIdempotent | frontend/src/pages/admin/BookingManagement.jsx:17-30 | when the parse branch formats YYYY-MM-DD, the result is `''` or an ISO date and normalising it again changes nothing |
| Dates.NormalizeDate | frontend/src/components/ScheduleFilter.jsx:14-25 | a YYYY-MM-DD string is returned unchanged |
| Dates.NormalizersAgreeOnIsoDates | frontend/src/components/ScheduleFilter.jsx:16-18 | on an ISO date both normalisers return the date, so the panel's choices match the filters' keys |
| Ledger.RequestedSeatsShape | backend/routes/bookings.js:39 | an array gives one string per item in order; a string gives at least one seat, each comma-free and trimmed |
| Ledger.ConflictMeans | backend/routes/bookings.js:47 | a conflict is a requested seat already in the ledger |
| Ledger.ReleasedSpec | backend/routes/bookings.js:100 | the release keeps exactly the ledger entries not among the seats, in order and with their counts |
| Ledger.ClaimStep | backend/routes/bookings.js:33-76 | every failed claim leaves the database unchanged |
| Ledger.ClaimFailures | backend/routes/bookings.js:46-55 | a claim fails on a missing schedule, a conflict or a lack of seats, exactly then, with the conflict checked first |
| Ledger.ClaimSuccess | backend/routes/bookings.js:57-66 | a successful claim appends the seats in request order, lowers the counter by their number, appends a confirmed booking and touches no other schedule |
| Ledger.StoredSeats | backend/routes/bookings.js:92 | the cancel handler's seat list has at least one entry |
| Ledger.CancelStep | backend/routes/bookings.js:78-120 | every failed cancel leaves the database unchanged |
| Ledger.CancelFailures | backend/routes/bookings.js:83-99 | a cancel fails iff the booking id is unknown or its schedule row is missing |
| Ledger.CancelSuccess | backend/routes/bookings.js:99-110 | a successful cancel marks the booking cancelled, removes every ledger entry equal to a stored seat, keeps the others with order and count, raises the counter by the stored seat count and touches no other schedule |
| Ledger.ClaimConservesSeats | backend/routes/bookings.js:53-66 | a claim keeps free plus booked seats of every schedule |
| Ledger.StoredTextRoundTrip | backend/routes/bookings.js:59-92 | for a non-empty array of comma-free seats, splitting the stored text gives back the seats put in the ledger |
| Ledger.IndexArraysArePlain | backend/routes/bookings.js:59 | every non-empty array of seat indices is such an array |
| Ledger.ReleaseAppended | backend/routes/bookings.js:62-100 | releasing the seats just appended after a conflict-free check gives back the ledger |
| Ledger.ClaimThenCancelRestores | backend/routes/bookings.js:47-110 | claiming a plain array then cancelling the new booking restores every schedule row; the booking stays, cancelled |
| Ledger.CancelAppended | backend/routes/bookings.js:99-110 | cancelling a just-appended booking whose stored seats were just appended restores the rows |
| Ledger.CancelTwice | backend/routes/bookings.js:83-110 | cancelling again succeeds and raises the counter once more while the ledger list stays as it was |
| Ledger.BookingDb.constructor | backend/routes/bookings.js:33-120 | the tables start with the given schedule rows and no bookings |
| Ledger.BookingDb.Claim | backend/routes/bookings.js:33-76 | the outcome and new fields are those of the claim step on the old fields |
| Ledger.BookingDb.Cancel | backend/routes/bookings.js:78-120 | the outcome and new fields are those of the cancel step on the old fields |
| LedgerFixes.DoubleCancelReleasesTwice | backend/routes/bookings.js:83-110 | claiming seat 3 on a 40-seat schedule and cancelling twice leaves 41 free seats |
| LedgerFixes.UntrimmedCancelLeaksSeat | backend/routes/bookings.js:39-92 | claiming `"3, 4"` then cancelling leaves `["4"]` booked with 40 free seats |
| LedgerFixes.SampleClaim | backend/routes/bookings.js:39-66 | the claim of `"3, 4"` books `"3"` and `"4"` and stores the text as sent |
| LedgerFixes.SampleCancel | backend/routes/bookings.js:92-110 | that cancel releases `"3"` and `" 4"`, so only `"3"` leaves the ledger |
| LedgerFixes.SampleSplit | backend/routes/bookings.js:92 | `"3, 4".split(',')` is `["3", " 4"]` |
| LedgerFixes.SampleRelease | backend/routes/bookings.js:100 | releasing `"3"` and `" 4"` from `["3", "4"]` keeps `["4"]` |
| LedgerFixes.EmptyClaimCancelReleasesSeat | backend/routes/bookings.js:39-92 | an empty array books nothing, yet cancelling it frees one seat: 41 out of 40 |
| LedgerFixes.ClaimFixed | backend/routes/bookings.js:33-76 | failures roll back; a request whose stored text does not parse back is refused; any other request behaves as written |
| LedgerFixes.CancelFixed | backend/routes/bookings.js:78-120 | failures roll back; a booking already cancelled is refused |
| LedgerFixes.TextRequestsRoundTrip | backend/routes/bookings.js:39-59 | every string request parses back to its seats |
| LedgerFixes.PlainArraysRoundTrip | backend/routes/bookings.js:59-62 | a non-empty array of comma-free, trimmed seats parses back |
| LedgerFixes.EmptyArrayRefused | backend/routes/bookings.js:39-59 | the corrected claim refuses an empty array |
| LedgerFixes.FixedClaimAgreesOnIndexArrays | backend/routes/bookings.js:33-76 | on the arrays of indices the pickers send, the corrected claim is the claim as written |
| LedgerFixes.FixedCancelAgreesOnPlainBookings | backend/routes/bookings.js:78-120 | on a confirmed booking whose pieces need no trim, the corrected cancel is the cancel as written |
| LedgerFixes.HeldAppend | backend/routes/bookings.js:57-60 | an appended booking adds its own seats to the held count |
| LedgerFixes.HeldUpdate | backend/routes/bookings.js:102-105 | replacing one booking changes the held count by the difference of contributions |
| LedgerFixes.HeldMember | backend/routes/bookings.js:57-66 | a seat of a confirmed booking is held |
| LedgerFixes.HeldAbsent | backend/routes/bookings.js:57-66 | a seat no confirmed booking of the schedule lists is not held |
| LedgerFixes.HeldAt | backend/routes/bookings.js:99-100 | with separate bookings, all held copies of a booking's seat are that booking's |
| LedgerFixes.AppendSeparate | backend/routes/bookings.js:47-60 | a conflict-free booking appended keeps bookings separate |
| LedgerFixes.ClaimFixedKeepsConsistent | backend/routes/bookings.js:33-76 | the corrected claim preserves: ledger counts equal held seats, free plus booked equals capacity, bookings separate |
| LedgerFixes.ReleaseBooking | backend/routes/bookings.js:99-100 | in a consistent database the release removes exactly the booking's seats from the ledger multiset |
| LedgerFixes.CancelSeparate | backend/routes/bookings.js:102-105 | cancelling a booking keeps bookings separate |
| LedgerFixes.CancelledRow | backend/routes/bookings.js:99-110 | the released row keeps its capacity and lists exactly what the remaining bookings hold |
| LedgerFixes.CancelOtherSchedules | backend/routes/bookings.js:102-110 | a cancel leaves every other schedule's held seats unchanged |
| LedgerFixes.CancelFixedKeepsConsistent | backend/routes/bookings.js:78-120 | the corrected cancel preserves the consistency invariant |
| LedgerFixes.FreshSchedulesConsistent | backend/routes/schedules.js:35-36 | freshly created schedules with no bookings are consistent |
| ScheduleCreation.CreateSchedules | backend/routes/schedules.js:23-45 | one row per day from start to end inclusive (none when start > end or a date is invalid). Each row has the request's bus, route, time and price, the bus's seat count and an empty ledger. Dates are consecutive and the message reports their number. An unknown bus fails iff the range is non-empty |
| ScheduleCreation.ConsecutiveDays | backend/routes/schedules.js:32-39 | the created dates are strictly increasing, one day apart |
| SeatPicker.ToggleBooked | frontend/src/components/SeatLayout.jsx:3-4 | toggling a booked seat leaves the selection unchanged |
| SeatPicker.ToggleFree | frontend/src/components/SeatLayout.jsx:6-9 | an unbooked seat is removed (others kept in order with counts) if selected, else appended |
| SeatPicker.ToggleSeatTwice | frontend/src/components/SeatLayout.jsx:6-9 | toggling an unbooked, unselected seat twice restores the selection |
| SeatPicker.ToggleKeepsSelectionFree | frontend/src/components/SeatLayout.jsx:2-11 | a selection holding no booked seat holds none after a toggle, and stays duplicate-free |
| SeatPicker.Grid | frontend/src/components/SeatLayout.jsx:34 | the grid has 70 cells |
| SeatPicker.GridCells | frontend/src/components/SeatLayout.jsx:34-55 | cell i is a seat iff i is in the layout, labelled i+1; booked before selected before available; disabled iff booked |
| SeatPicker.ClickFlipsCell | frontend/src/components/SeatLayout.jsx:47-53 | clicking an enabled seat flips it between selected and available and changes no other cell |
| LayoutDesigner.DecodeLayout | frontend/src/components/BusSeatLayoutDesigner.jsx:9-14 | the decoded grid has at least 70 cells and is true exactly at the listed non-negative indices (all false without a layout) |
| LayoutDesigner.DecodeUnique | frontend/src/components/BusSeatLayoutDesigner.jsx:9-14 | a list of indices decodes to one grid |
| LayoutDesigner.ToggleCell | frontend/src/components/BusSeatLayoutDesigner.jsx:16-20 | the copy has the same length, cell i flipped, all others equal |
| LayoutDesigner.FlipTwice | frontend/src/components/BusSeatLayoutDesigner.jsx:16-20 | flipping a cell twice restores the grid |
| LayoutDesigner.ActiveIndices | frontend/src/components/BusSeatLayoutDesigner.jsx:24 | encoding lists exactly the true cells' indices, strictly increasing |
| LayoutDesigner.EncodedLength | frontend/src/components/BusSeatLayoutDesigner.jsx:24-33 | the encoded list's length is the displayed count of active cells |
| LayoutDesigner.CountZero | frontend/src/components/BusSeatLayoutDesigner.jsx:119 | the active count is zero iff no cell is active |
| LayoutDesigner.FlipCount | frontend/src/components/BusSeatLayoutDesigner.jsx:16-20 | a flip changes the active count by one, down or up |
| LayoutDesigner.SubmitAgreesWithCount | frontend/src/components/BusSeatLayoutDesigner.jsx:24-119 | `total_seats` equals the encoded length and the displayed count; submit is disabled iff no cell is active, iff the layout is empty |
| LayoutDesigner.DecodeEncode | frontend/src/components/BusSeatLayoutDesigner.jsx:9-24 | decoding the encoding of a 70-cell grid gives back the grid |
| LayoutDesigner.EncodeDecode | frontend/src/components/BusSeatLayoutDesigner.jsx:9-24 | encoding a decoded list gives the list's non-negative indices, ascending |
| LayoutDesigner.AscendingUnique | frontend/src/components/BusSeatLayoutDesigner.jsx:24 | two ascending lists with the same members are equal |
| LayoutDesigner.EncodeDecodeInRange | frontend/src/components/BusSeatLayoutDesigner.jsx:9-24 | for indices in 0..69 the decoded grid has 70 cells and encodes to the sorted list of the indices |
| ScheduleFilterPanel.ClearAllFilters | frontend/src/components/ScheduleFilter.jsx:61-64 | both lists become empty |
| ScheduleFilterPanel.DateChangeToggles | frontend/src/components/ScheduleFilter.jsx:31-41 | the normalised date is removed if present, else appended; other dates and the routes are unchanged; an ISO date is its own key |
| ScheduleFilterPanel.RouteChangeToggles | frontend/src/components/ScheduleFilter.jsx:43-51 | the route label is removed if present, else appended; other routes and the dates are unchanged |
| ScheduleFilterPanel.EditsKeepValid | frontend/src/components/ScheduleFilter.jsx:31-64 | every edit keeps both lists duplicate-free |
| ScheduleFilterPanel.ToggleTwiceRestores | frontend/src/components/ScheduleFilter.jsx:31-51 | toggling any date value whose normalised key is not selected (a cleared input included), or an unselected route, twice restores the selection |
| ScheduleFilterPanel.RemoveDeletesOnly | frontend/src/components/ScheduleFilter.jsx:53-59 | removal deletes only the value, keeps the others in order with counts and leaves the other list |
| ScheduleFilterPanel.ClearHidesButton | frontend/src/components/ScheduleFilter.jsx:61-74 | after clearing the "clear all" button is hidden; it shows iff something is selected |
| FilteredData.FilterData | frontend/src/hooks/useFilteredData.js:26-84 | non-array data gives `[]`; an array gives exactly the items every stage accepts, in order |
| FilteredData.ApplyExtras | frontend/src/hooks/useFilteredData.js:55-81 | running the extra filters in turn keeps exactly the items all of them accept |
| FilteredData.SkippedStages | frontend/src/hooks/useFilteredData.js:32-52 | the conditional date and route stages equal one filter by their combined test |
| FilteredData.ExtraStage | frontend/src/hooks/useFilteredData.js:55-81 | one more extra filter after the earlier ones is a filter by all of them |
| FilteredData.ExtrasStep | frontend/src/hooks/useFilteredData.js:55-81 | the test of the first k+1 extra filters is the test of the first k and the next |
| FilteredData.LastStage | frontend/src/hooks/useFilteredData.js:29-83 | base stages followed by the extra filters equal one filter by the whole test |
| FilteredData.ResultIsOrderedSelection | frontend/src/hooks/useFilteredData.js:29-83 | the result is an ordered subsequence holding exactly the accepted items, with their counts |
| FilteredData.NoFiltersKeepAll | frontend/src/hooks/useFilteredData.js:32-56 | with no dates, no routes and only falsy extra filters the result is the input |
| FilteredData.SearchMatches | frontend/src/hooks/useFilteredData.js:58-68 | search with a term and fields keeps an item iff some field is truthy and its lower-cased text contains the lower-cased term |
| FilteredData.PlainMatches | frontend/src/hooks/useFilteredData.js:70-79 | two strings compare case-insensitively; other values compare by strict equality |
| BookingFilter.FilterBookings | frontend/src/pages/admin/BookingManagement.jsx:72-98 | the four conditional stages keep exactly the listed bookings, in order |
| BookingFilter.SkippedStage | frontend/src/pages/admin/BookingManagement.jsx:75-94 | each stage whose filter is empty would keep every booking |
| BookingFilter.StagesCompose | frontend/src/pages/admin/BookingManagement.jsx:72-98 | the four conditional stages equal one filter by the combined test |
| BookingFilter.ListedSelection | frontend/src/pages/admin/BookingManagement.jsx:72-98 | the result is an ordered subsequence of exactly the listed bookings; with no filters it is the input |
| BookingFilter.SearchAndRouteMatch | frontend/src/pages/admin/BookingManagement.jsx:75-92 | search keeps a booking iff its user name or email, lower-cased, contains the lower-cased term; the route stage matches `source → destination` |
| CancelModal.SeatListShape | frontend/src/components/BookingCancelModal.jsx:9 | the listed seats are the corrected cancel's parse: at least one, each comma-free and trimmed |
| CancelModal.SeatListOfIndexArray | frontend/src/components/BookingCancelModal.jsx:9 | for a booking made from seat indices the dialog lists exactly the ledger's seats |
| CancelModal.SeatToggleSpec | frontend/src/components/BookingCancelModal.jsx:11-17 | a selected seat is removed with the rest kept in order; an unselected one is appended; twice restores |
| CancelModal.CancelSeatsSpec | frontend/src/components/BookingCancelModal.jsx:19-51 | an empty selection is refused with "Please select at least one seat to cancel"; otherwise the request carries exactly the selected seats; delete sends no body |
| CancelModal.ButtonsAgreeWithGuard | frontend/src/components/BookingCancelModal.jsx:87-120 | the seat picker shows iff the stored text has a comma; a shown partial button always sends |
| CancelModal.PartialIsWhole | backend/routes/bookings.js:78-110 | cancelling selected seats has the server effect of deleting the whole booking |

## Left out

- Database access, the connection pool, `FOR UPDATE` row locking and transactions: each handler is one atomic step, and "rollback" means the state is unchanged.
- Booking ids: a booking's id is its position plus one in the bookings table, as AUTO_INCREMENT from 1 with no deletes.
- `JSON.parse` and `JSON.stringify` of `booked_seats` and `seat_layout`: the stored values are `seq<string>` and `seq<int>`. Layout entries that are not integers are not modelled.
- JavaScript `Date` parsing, time zones and `toISOString`: days are integers, an Invalid Date is `None`, and the parse branch of the date normalisers is a function parameter.
- `toLowerCase` folds ASCII letters only.
- Prices and `total_amount` pass through as opaque text or are left out; the client-computed total is not checked by the source either.
- LayoutDesigner.DecodeLayout: holes left by indices past 70 read as `false`, as the truthiness tests that consume the grid read them.
- Numbers are integers: no NaN, infinity or fractions.
- Request shapes the claim handler cannot process are not modelled. A `seat_numbers` that is missing, `null`, a number, a boolean or an object has no `split` method. A `null` or `undefined` element of the array has no `toString`. In both cases the handler throws, rolls back and answers 500, so the database is unchanged. The other array elements (booleans, nested arrays, objects) behave as `Str` of their `String()` form, which the model's `Str` case covers.
- A non-string search term or `user_name`, on which the source would throw, is not modelled (the names and emails are optional strings).
- A missing `extraFilters` object is the empty list of entries; a search object under a key other than `search` is compared by strict equality and so keeps nothing.
- Authentication, the other CRUD routes, bootstrapping, fetch calls, toasts and all layout and styling are not part of this model.
- The partial cancel request's `seats_to_cancel` body is ignored by the server, so there is no partial cancellation to model.

## Findings

| source | as written | input that shows it | evidently intended | confidence | as-written member | corrected member |
|---|---|---|---|---|---|---|
| backend/routes/bookings.js:83-110 | cancel never checks `booking_status`, so a second cancel releases the seats again | claim seat 3 on a 40-seat schedule, cancel booking 1 twice: 41 free seats | an already cancelled booking is refused | not executed | LedgerFixes.DoubleCancelReleasesTwice | LedgerFixes.CancelFixed |
| backend/routes/bookings.js:39-92 | the claim trims string pieces but stores the text raw; cancel splits without trimming | claim `"3, 4"`, then cancel: `"4"` stays booked while the counter returns to 40 | cancel releases exactly the seats the claim booked | not executed | LedgerFixes.UntrimmedCancelLeaksSeat | LedgerFixes.CancelFixed |
| backend/routes/bookings.js:39-92 | an empty array books nothing and stores `""`, which splits into `[""]` | claim `[]`, then cancel: 41 free seats out of 40 | a request whose stored text does not give back its seats is refused | not executed | LedgerFixes.EmptyClaimCancelReleasesSeat | LedgerFixes.ClaimFixed |
