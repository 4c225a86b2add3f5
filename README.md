# Parking lot allocation, modelled in Dafny

This project models the core of a parking-lot booking application: a Flask
backend over SQLAlchemy, and a Vue frontend.

- **Store.** The backend keeps three tables: parking lots, their numbered
  spots (status 'A' available or 'O' occupied), and reservations
  ("active" until the user leaves, then "completed" with a leaving time and
  a cost).
- **User routes.** A user books the lowest-numbered free spot of a lot,
  leaves it and is billed for every started hour, and lists lot availability
  and their own history.
- **Admin routes.** An administrator creates lots with their spots, edits and
  resizes them, deletes lots that were never booked, lists lots and spots, and reads
  dashboard counts.
- **Frontend.** The router's guard decides, for each navigation, whether the
  page is shown or where the user is redirected. The display helpers format
  durations, amounts, status badges and occupancy colours, pick the message
  for an API error, and check e-mail addresses.

How it is modelled:

- The whole database is one value, `Store.Db`: three sequences in insertion
  (primary key) order and the next key of each table.
- Each backend route is a transition function on that value. It returns the
  new store and an outcome datatype that carries the HTTP status.
- `Store.Valid` collects the invariants every route keeps:
  - keys are unique and increasing;
  - every spot belongs to an existing lot;
  - a lot's `number_of_spots` equals its spot count, and its spots are
    numbered 1..n;
  - a spot is 'O' exactly when one active reservation holds it;
  - an active reservation's spot exists;
  - a user has at most one active reservation;
  - a reservation has a leaving time and a cost exactly when it is
    completed.
- The class `ParkingStore.ParkingStore` holds the three tables as fields. Its
  methods change them in place with the routes' loops. Each method is proved
  to have the effect of the transition function of the same name and to keep
  `Valid`.
- Timestamps are integer seconds in the backend and integer milliseconds in
  the frontend. The clock reading is always a parameter. Prices and costs
  are exact reals.

Files:

- `wrappers.dfy`: `Option`.
- `seqs.dfy`: filtering and counting over sequences.
- `models.dfy`: the records and their column defaults.
- `store.dfy`: the store value, its queries and the invariant.
- `allocation.dfy`: booking, leaving, the availability list and the history.
- `capacity.dfy`: creating, updating and deleting lots.
- `capacity_valid.dfy`: the capacity routes keep the invariant.
- `admin_views.dfy`: the admin lot list, spot list and dashboard.
- `parking_store.dfy`: the imperative store.
- `router.dfy`: the navigation guard.
- `redirects.dfy`: where a chain of redirects ends.
- `helpers.dfy`: the display helpers.

Some of the code's behaviour is easy to miss when reading its messages and
names. The model follows the code:

- **Spot numbers are reused.** Growing a lot numbers the new spots on from
  the highest existing number (backend/routes/admin_routes.py:175-182). A
  lot shrunk from 5 to 3 and grown to 4 therefore gets a new spot
  numbered 4, not 6. `CapacityInvariants.ShrinkThenGrowReusesNumber` states
  this.
- **Blocked shrinks and deletes answer 400, not 409.** This covers a shrink
  blocked by an occupied candidate and a delete blocked by use
  (backend/routes/admin_routes.py:192, 225).
- **Spots with history cannot be deleted.** `ParkingSpot.reservation`
  (backend/models.py:55) does not cascade. Deleting a spot row therefore
  clears `reservations.spot_id`, which is NOT NULL (backend/models.py:62).
  So a delete or a shrink that would remove a spot some reservation names,
  even a completed one, fails at the commit. It is rolled back and answered
  500 (backend/routes/admin_routes.py:194-207, 227-238). A lot that was ever
  booked can never be deleted. `Capacity.DeleteUsedLotFails` shows one.
- **Request numbers go through `float()` and `int()`.** `create_lot`
  converts outside its `try` (backend/routes/admin_routes.py:33-34): a null
  or non-numeric price or count ends the request with an unhandled error
  (500), and a missing count is 0, which is refused with 400. `update_lot`
  converts inside its `try` (lines 159-167), so the same values are answered
  500, and a null member is skipped like a missing one. A fractional count
  is cut to its integer part: 2.9 spots are 2.
- **`book_spot` answers 409 for both refusals.** These are an existing
  active reservation and a full lot. The model distinguishes them by
  outcome (`AlreadyActive`, `NoAvailableSpot`).

## Model

| member | source | states |
|---|---|---|
| Models.StatusCodesRoundTrip | backend/models.py:51-78 | every spot, reservation and export status is stored as its code and reads back as itself; only those codes read back |
| Models.NewRecordDefaults | backend/models.py:17-81 | column defaults: a new lot has no spots and price 0, a spot is 'A', a reservation "active" with no end or cost, a user has role "user", an export job is "pending" |
| Store.SortByNumber | backend/routes/admin_routes.py:113 | `order_by(spot_number)` yields a permutation of the spots sorted by number |
| Store.SortSortedIsIdentity | backend/routes/admin_routes.py:113 | sorting spots already in number order leaves them as they are |
| Store.FirstAvailableIndex | backend/routes/user_routes.py:59 | the spot found is an available spot of the lot with the lowest number among them; none is found exactly when the lot has no available spot |
| Store.FirstReservation | backend/routes/user_routes.py:49 | the row found satisfies the filter; none is found exactly when no row does |
| Store.EmptyValid | backend/models.py:32-68 | the empty database satisfies every invariant |
| Store.StatusesPartition | backend/models.py:51 | every spot is counted either as occupied or as available |
| Store.OccupiedAfterUpdate | backend/routes/user_routes.py:66 | changing one spot row changes its lot's occupied count by what the old and new rows contribute |
| Store.HeldSpotIsOccupied | backend/routes/user_routes.py:66-74 | on a consistent store the spot an active reservation holds is 'O' |
| Store.OccupiedIffHeld | backend/routes/user_routes.py:66-116 | on a consistent store a spot is 'O' exactly when an active reservation holds it |
| Store.AppendToLot | backend/routes/admin_routes.py:181-184 | adding spots of one lot extends that lot's spots and leaves every other lot's spots unchanged |
| Store.NoSpotsInFreshLot | backend/routes/admin_routes.py:51-56 | no spot belongs to the lot key handed out next |
| Allocation.BillableHours | backend/routes/user_routes.py:109-111 | a stay of `seconds` is billed the number of started hours: `(h-1)*3600 < seconds <= h*3600`, and 0 when no time elapsed |
| Allocation.BillExamples | backend/routes/user_routes.py:111-113 | 61 minutes at 50/hour costs 100, one hour costs 50, 59 seconds costs 50, no time costs 0 |
| Allocation.BillableHoursMonotone | backend/routes/user_routes.py:111 | a longer stay is never billed fewer hours |
| Allocation.Book | backend/routes/user_routes.py:42-87 | a refused booking changes nothing. A booking keeps the lots and the number of spot rows, and appends one active reservation of the user on the spot it answers with, under the key it answers with. |
| Allocation.Leave | backend/routes/user_routes.py:96-125 | a refused release changes nothing. A release keeps the lots and adds or removes no row, and needs a truthy `reservation_id`. |
| Allocation.AvailableLots | backend/routes/user_routes.py:17-33 | one availability row per lot, newest first, each with its lot's capacity as total |
| Allocation.MyReservations | backend/routes/user_routes.py:131-144 | as many history rows as the user has reservations |
| Allocation.BookNeedsLotId | backend/routes/user_routes.py:44-46 | a booking without a truthy `lot_id` answers 400 and changes nothing |
| Allocation.BookRefusesSecondActive | backend/routes/user_routes.py:49-51 | a user holding an active reservation gets 409 with that reservation's id; nothing changes |
| Allocation.BookRefusesFullLot | backend/routes/user_routes.py:59-62 | a lot with no available spot answers 409 and nothing changes |
| Allocation.BookClaimsLowestFreeSpot | backend/routes/user_routes.py:59-83 | otherwise the answer is 201. The lowest-numbered available spot of the lot becomes 'O'. One new active reservation of it for the user is appended. Nothing else changes. |
| Allocation.BookPreservesValid | backend/routes/user_routes.py:37-87 | booking keeps every store invariant |
| Allocation.LeaveNeedsReservationId | backend/routes/user_routes.py:98-101 | leaving without a truthy `reservation_id` answers 400 and changes nothing |
| Allocation.LeaveRefusesOthers | backend/routes/user_routes.py:103-105 | an id that is not an active reservation of this user answers 404 and changes nothing |
| Allocation.LeaveReleases | backend/routes/user_routes.py:108-122 | leaving one's own active reservation sets its leaving time to now. The cost is the started hours times the lot's price. The status becomes completed and the spot becomes 'A'. The answer is 200 with that cost and the minutes. |
| Allocation.LeaveNeverFailsOnValidStore | backend/routes/user_routes.py:112-125 | on a consistent store the release never reaches the 500 path |
| Allocation.LeaveTwiceFails | backend/routes/user_routes.py:103-114 | repeating a successful leave answers 404 and changes nothing |
| Allocation.LeavePreservesValid | backend/routes/user_routes.py:91-125 | leaving keeps every store invariant |
| Allocation.AvailabilityRows | backend/routes/user_routes.py:17-33 | one availability row per lot, newest lot first |
| Allocation.AvailabilityCountsFreeSpots | backend/routes/user_routes.py:21-23 | on a consistent store `total - occupied` is the lot's number of 'A' spots, between 0 and its capacity |
| Allocation.AvailableLotsBounded | backend/routes/user_routes.py:17-33 | the list has one row per lot and every row's availability lies in 0..total |
| Allocation.BookTakesOneSpot | backend/routes/user_routes.py:59-66 | a successful booking lowers the booked lot's availability by one and no other lot's |
| Allocation.ReleaseFreesSpot | backend/routes/user_routes.py:116 | freeing an occupied spot raises its lot's availability by one and no other lot's |
| Allocation.LeaveFreesOneSpot | backend/routes/user_routes.py:103-117 | a successful leave frees the spot of the caller's active reservation with the given key. That spot was 'O'. Its lot's availability rises by one and no other lot's changes. |
| Allocation.BookExtendsHistory | backend/routes/user_routes.py:67-74 | booking only appends to the reservations; completed ones are untouched |
| Allocation.LeaveExtendsHistory | backend/routes/user_routes.py:108-114 | leaving only completes a reservation; key, spot, user and start stay, completed ones are untouched |
| Allocation.HistoryRows | backend/routes/user_routes.py:132-144 | one history row per reservation, newest first |
| Allocation.MyReservationsAreTheUsers | backend/routes/user_routes.py:131-144 | the history lists exactly the user's reservations, one row each, with their status |
| Capacity.NewSpots | backend/routes/admin_routes.py:55-58 | `k` new spots get consecutive keys and numbers `start+1..start+k` |
| Capacity.NewSpotsFacts | backend/routes/admin_routes.py:55-58 | the new spots belong to the lot, are available, have increasing fresh keys, and from 0 are numbered 1..k |
| Capacity.Truncate | backend/routes/admin_routes.py:34 | `int()` of a number is its integer part, rounded toward zero for either sign |
| Capacity.ConversionsAgree | backend/routes/admin_routes.py:33-34 | whatever `int()` accepts `float()` accepts too, and `int()` is the float rounded toward zero. Null and non-numbers are refused by both. Only decimal text is accepted by `float()` alone. |
| Capacity.TruncateExamples | backend/routes/admin_routes.py:34 | 2.9 reads as 2 and -2.9 as -2; the text "2.9" is refused by `int()` |
| Capacity.CreateLot | backend/routes/admin_routes.py:31-71 | every answer but 201 leaves the store unchanged |
| Capacity.CreateRefusedIff | backend/routes/admin_routes.py:31-39 | `create_lot` answers 500 exactly when the price or the count does not convert. It answers 400 exactly when both convert and the name is missing or empty or the count is not positive. Both change nothing. |
| Capacity.CreateNullIsNotMissing | backend/routes/admin_routes.py:33-39 | a null count or price fails with 500. A missing count is 0 and refused with 400. A count of 2.9 creates 2 spots. |
| Capacity.CreateNumbersOneToN | backend/routes/admin_routes.py:41-68 | a created lot gets the next key and exactly n available spots numbered 1..n. The answer is 201 with n. Other lots' spots are unchanged. |
| Capacity.EditFields | backend/routes/admin_routes.py:156-164 | a field edit keeps the lot's key, count and creation time |
| Capacity.HighestNumber | backend/routes/admin_routes.py:175-178 | the start of a grow is the highest spot number of the lot, or 0 when it has none |
| Capacity.ShrinkCandidates | backend/routes/admin_routes.py:187-188 | the shrink candidates are `remove_count` spots of the lot (all when fewer), none numbered below a spot left out |
| Capacity.UpdateLotRequest | backend/routes/admin_routes.py:144-207 | every answer but 200 leaves the store unchanged |
| Capacity.UpdateLot | backend/routes/admin_routes.py:156-207 | once the numbers are converted, every answer but 200 leaves the store unchanged |
| Capacity.Grow | backend/routes/admin_routes.py:174-185 | the growing branch answers 200 and adds `new - current` spot rows and no lot |
| Capacity.Shrink | backend/routes/admin_routes.py:186-207 | the shrinking branch changes nothing unless it answers 200 |
| Capacity.UpdateRequestIsUpdate | backend/routes/admin_routes.py:144-167 | a request whose numbers convert is the update with the converted numbers, the 404 included |
| Capacity.UpdateConversionFails | backend/routes/admin_routes.py:159-167 | for a known lot, a price `float()` refuses or a count `int()` refuses answers 500 (the `except` of lines 205-207), and nothing changes |
| Capacity.UpdateNullIsMissing | backend/routes/admin_routes.py:151-166 | a null price or count is skipped exactly like a missing one |
| Capacity.UpdateTruncatesCount | backend/routes/admin_routes.py:167 | a fractional count asks for its integer part |
| Capacity.UpdateNotFound | backend/routes/admin_routes.py:145-148 | an unknown lot answers 404 and nothing changes |
| Capacity.UpdateRejectsNegative | backend/routes/admin_routes.py:166-169 | a negative count answers 400 and nothing changes, not even the requested field edits |
| Capacity.UpdateSameCountKeepsSpots | backend/routes/admin_routes.py:166-173 | without a count, or with the current one, only the lot's fields change |
| Capacity.UpdateGrows | backend/routes/admin_routes.py:174-185 | a grow appends `new - current` available spots numbered on from the highest existing number and records the count; other lots are unchanged |
| Capacity.ShrinkBlockedChangesNothing | backend/routes/admin_routes.py:186-192 | a shrink with a non-available candidate answers 400 and deletes nothing |
| Capacity.ShrinkDeletesCandidates | backend/routes/admin_routes.py:186-198 | a shrink whose candidates are all available and named by no reservation deletes exactly them and records the count |
| Capacity.ShrinkFailsOnHistory | backend/routes/admin_routes.py:194-198 | a shrink whose available candidates include one a reservation names, even a completed one, fails at the commit, is answered 500 by the `except` of lines 205-207, and changes nothing |
| Capacity.ShrinkSucceededOnAvailable | backend/routes/admin_routes.py:190-198 | a shrink answered 200 found all candidates available and named by no reservation |
| Capacity.DeleteLot | backend/routes/admin_routes.py:217-238 | every answer but 200 leaves the store unchanged |
| Capacity.DeleteNotFoundChangesNothing | backend/routes/admin_routes.py:217-219 | deleting an unknown lot answers 404 and nothing changes |
| Capacity.DeleteRefusedInUse | backend/routes/admin_routes.py:221-225 | a lot with an occupied spot or an active reservation on one of its spots is not deleted: 400, nothing changes |
| Capacity.DeleteRemovesLotAndSpots | backend/routes/admin_routes.py:227-235 | a lot in no use whose spots no reservation names is deleted with exactly its spots (the cascade of backend/models.py:42). Reservations stay, and each still names an existing spot. |
| Capacity.DeleteFailsOnHistory | backend/routes/admin_routes.py:227-238 | a lot in no use with a spot some reservation names, even a completed one, is not deleted: 500, nothing changes |
| Capacity.DeleteUsedLotFails | backend/routes/admin_routes.py:221-238 | a one-spot lot booked once and left cannot be deleted: the answer is 500 |
| CapacityInvariants.SpotNumbersUnique | backend/routes/admin_routes.py:55-56 | on a consistent store no two spots of a lot share a number |
| CapacityInvariants.HighestIsCount | backend/routes/admin_routes.py:175-178 | on a consistent store the highest spot number of a lot equals its `number_of_spots` |
| CapacityInvariants.DeleteChecksAgree | backend/routes/admin_routes.py:221-224 | on a consistent store the two delete checks agree: an occupied spot exists exactly when an active reservation sits on the lot |
| CapacityInvariants.CreatePreservesValid | backend/routes/admin_routes.py:26-71 | creating a lot keeps every store invariant |
| CapacityInvariants.GrowKeepsValid | backend/routes/admin_routes.py:174-185 | growing a lot keeps every store invariant |
| CapacityInvariants.CandidatesAreTail | backend/routes/admin_routes.py:187-188 | on a consistent store the candidates of a shrink to n are the lot's spots numbered above n |
| CapacityInvariants.ShrinkKeepsLowest | backend/routes/admin_routes.py:186-196 | a successful shrink to n leaves the lot exactly its spots numbered 1..n; other lots are unchanged |
| CapacityInvariants.ShrinkKeepsValid | backend/routes/admin_routes.py:186-196 | shrinking a lot keeps every store invariant |
| CapacityInvariants.UpdatePreservesValid | backend/routes/admin_routes.py:139-207 | `update_lot` keeps every store invariant on every path |
| CapacityInvariants.UpdateRequestPreservesValid | backend/routes/admin_routes.py:139-207 | an update request keeps every store invariant, whether its numbers convert or not |
| CapacityInvariants.ShrinkThenGrowReusesNumber | backend/routes/admin_routes.py:175-196 | shrinking a lot to n and growing it by one creates a new spot row numbered n+1, the number a deleted spot had |
| CapacityInvariants.DeletePreservesValid | backend/routes/admin_routes.py:212-238 | `delete_lot` keeps every store invariant |
| AdminViews.ListLots | backend/routes/admin_routes.py:81-98 | one row per lot; in each row occupied plus available is the lot's capacity |
| AdminViews.LotRows | backend/routes/admin_routes.py:81-98 | one lot row per lot, newest first |
| AdminViews.ListLotsOnePerLot | backend/routes/admin_routes.py:81-98 | the lot list has one row per lot, in decreasing key order, and every lot appears |
| AdminViews.LotRowCounts | backend/routes/admin_routes.py:84-86 | on a consistent store a row's occupied count lies in 0..capacity. Its available count is the lot's number of 'A' spots, as in the users' list. |
| AdminViews.ListLotsCounts | backend/routes/admin_routes.py:83-97 | every row of the lot list is consistent and agrees with the users' availability list row by row |
| AdminViews.ListSpotsForLot | backend/routes/admin_routes.py:109-134 | the listing is missing (404) exactly when no lot has the id; a found listing is of that lot and has one row per spot of it |
| AdminViews.SpotRows | backend/routes/admin_routes.py:116-133 | one spot row per listed spot, in order |
| AdminViews.ListSpotsNotFound | backend/routes/admin_routes.py:109-111 | the spot listing answers 404 exactly when no lot has the id |
| AdminViews.ListingFound | backend/routes/admin_routes.py:113 | a found listing shows exactly the lot's spots sorted by number |
| AdminViews.RowsMirrorSpots | backend/routes/admin_routes.py:116-133 | every listed row comes from a listed spot and every listed spot has its row |
| AdminViews.ListSpotsInOrder | backend/routes/admin_routes.py:113-134 | each spot of the lot is listed once, in ascending number, with its own number and status |
| AdminViews.ListSpotsNumberedOneToN | backend/routes/admin_routes.py:113-133 | on a consistent store the listed numbers are exactly 1..`number_of_spots` |
| AdminViews.OccupiedSpotIsLinked | backend/routes/admin_routes.py:125-126 | on a consistent store an occupied spot's link finds a reservation of that spot, and the active link finds the active one |
| AdminViews.OccupiedSpotsShowReservation | backend/routes/admin_routes.py:124-132 | on a consistent store an occupied spot shows details of a reservation of that spot; an available spot shows none |
| AdminViews.TwiceUsedSpotIsValid | backend/models.py:46-68 | the example store of a spot used twice is consistent |
| AdminViews.ListSpotsShowsStaleReservation | backend/routes/admin_routes.py:124-132 | for a spot used twice the listing as written shows the first, completed reservation |
| AdminViews.CurrentListingShowsHolder | backend/routes/admin_routes.py:124-132 | linking by the active reservation, an occupied spot shows the active reservation and user that hold it |
| AdminViews.DashboardStats | backend/routes/admin_routes.py:253-293 | total lots is the number of lots and occupied plus available is total spots. Occupied spots, active reservations and users are bounded by their tables. |
| AdminViews.CapacityCountsSpots | backend/routes/admin_routes.py:256 | the sum of `number_of_spots` counts the spots belonging to the lots |
| AdminViews.ActiveCountsOccupied | backend/routes/admin_routes.py:259-265 | active reservations counted spot by spot equal the occupied spots |
| AdminViews.DashboardConsistent | backend/routes/admin_routes.py:253-293 | on a consistent store total spots is the number of spot rows and available is the number of 'A' spots. Occupied spots equal active reservations. The rate is a percentage. |
| AdminViews.RateIsPercentage | backend/routes/admin_routes.py:289 | the occupancy rate lies between 0 and 100 |
| AdminViews.RevenueUpdate | backend/routes/admin_routes.py:272-282 | replacing one reservation changes the revenue by the difference of what the two rows earn |
| AdminViews.LeaveAddsToRevenue | backend/routes/admin_routes.py:270-282 | a release adds its cost to every revenue window already started and to no later one |
| AdminViews.BookKeepsRevenue | backend/routes/admin_routes.py:270-282 | a booking leaves every revenue figure unchanged |
| ParkingStore.AllFree | backend/routes/admin_routes.py:190-192 | the checking loop answers true exactly when every candidate is 'A' |
| ParkingStore.ParkingStore.constructor | backend/models.py:8 | a fresh store is empty and consistent |
| ParkingStore.ParkingStore.AddSpots | backend/routes/admin_routes.py:181-184 | the adding loop appends exactly the new spots and advances the spot key |
| ParkingStore.ParkingStore.RemoveSpots | backend/routes/admin_routes.py:194-195 | the deleting loop removes exactly the candidates' rows |
| ParkingStore.ParkingStore.ClaimSpot | backend/routes/user_routes.py:66-74 | the booking writes flip the spot to 'O' and append the reservation |
| ParkingStore.ParkingStore.BookSpotStep | backend/routes/user_routes.py:42-83 | the in-place booking has the effect and answer of `Book` |
| ParkingStore.ParkingStore.LeaveSpotStep | backend/routes/user_routes.py:96-122 | the in-place release has the effect and answer of `Leave` |
| ParkingStore.ParkingStore.CreateLotStep | backend/routes/admin_routes.py:31-68 | the in-place creation has the effect and answer of `CreateLot` |
| ParkingStore.ParkingStore.UpdateLotStep | backend/routes/admin_routes.py:144-207 | the in-place update has the effect and answer of `UpdateLotRequest` |
| ParkingStore.ParkingStore.GrowLot | backend/routes/admin_routes.py:174-185 | the growing writes have the effect and answer of `Grow` |
| ParkingStore.ParkingStore.ShrinkLot | backend/routes/admin_routes.py:186-207 | the shrinking writes have the effect and answer of `Shrink` |
| ParkingStore.ParkingStore.DeleteLotStep | backend/routes/admin_routes.py:217-238 | the in-place deletion has the effect and answer of `DeleteLot` |
| ParkingStore.ParkingStore.BookSpot | backend/routes/user_routes.py:37-87 | booking in place behaves as `Book` and keeps the store consistent |
| ParkingStore.ParkingStore.LeaveSpot | backend/routes/user_routes.py:91-125 | leaving in place behaves as `Leave` and keeps the store consistent |
| ParkingStore.ParkingStore.CreateLot | backend/routes/admin_routes.py:26-71 | creating in place behaves as `CreateLot` and keeps the store consistent |
| ParkingStore.ParkingStore.UpdateLot | backend/routes/admin_routes.py:139-207 | updating in place behaves as `UpdateLotRequest` and keeps the store consistent |
| ParkingStore.ParkingStore.DeleteLot | backend/routes/admin_routes.py:212-238 | deleting in place behaves as `DeleteLot` and keeps the store consistent |
| Router.Resolve | frontend/src/router/index.js:20-88 | a resolved route is in the table and matches the path; nothing resolves exactly when no route matches |
| Router.Guard | frontend/src/router/index.js:96-127 | the guard redirects only to /login or the user's dashboard. A page that needs no sign-in is shown to a signed-out visitor. A non-guest page is shown to a signed-in user whose role it allows. |
| Router.Navigate | frontend/src/router/index.js:83-127 | an unknown path goes to "/", and every redirect goes to "/", /login or a dashboard |
| Router.GuestPageRedirectsToDashboard | frontend/src/router/index.js:104-110 | a guest-only page visited while signed in redirects to the admin dashboard for role "admin", else to the user dashboard |
| Router.SignedOutGoesToLogin | frontend/src/router/index.js:113-115 | a page needing sign-in, visited signed out, redirects to /login |
| Router.WrongRoleGoesToOwnDashboard | frontend/src/router/index.js:118-124 | a page for another role redirects a signed-in user to their own dashboard |
| Router.ProceedIffNoRuleFires | frontend/src/router/index.js:96-127 | the guard lets a navigation through exactly when none of its three rules fires |
| Router.RulesInOrder | frontend/src/router/index.js:103-126 | the guest rule decides before the sign-in rule, which decides before the role rule |
| Router.UnknownPathGoesHome | frontend/src/router/index.js:83-87 | a path no route matches redirects to "/" |
| Router.LotDetailsNeedsAdmin | frontend/src/router/index.js:77-82 | "/admin/lots/<id>" is the lot details page: admins pass, users go to their dashboard, signed-out visitors to /login |
| Router.HomeResolves | frontend/src/router/index.js:21-26 | "/" resolves to the Home route |
| Router.LoginResolves | frontend/src/router/index.js:27-32 | "/login" resolves to the Login route |
| Router.UserDashboardResolves | frontend/src/router/index.js:40-45 | "/user/dashboard" resolves to the user dashboard route |
| Router.AdminDashboardResolves | frontend/src/router/index.js:65-70 | "/admin/dashboard" resolves to the admin dashboard route |
| Router.RedirectTargets | frontend/src/router/index.js:84-124 | every redirect goes to "/", to /login or to the user's dashboard |
| Redirects.TargetsSettle | frontend/src/router/index.js:96-127 | from each redirect target two more navigations reach a page the guard lets through |
| Redirects.NavigationSettles | frontend/src/router/index.js:96-127 | signed out, or signed in as "admin" or "user", every navigation settles within three steps on a page the guard admits |
| Redirects.SelfRedirectNeverSettles | frontend/src/router/index.js:96-127 | a page whose guard decision redirects to itself is never shown, whatever the number of navigations followed |
| Redirects.OtherRoleNeverSettles | frontend/src/router/index.js:118-123 | a signed-in user of any other role is redirected from the user dashboard to itself, for ever |
| Helpers.NatTextValue | frontend/src/utils/helpers.js:48 | a number's decimal text reads back as the number |
| Helpers.JsRem | frontend/src/utils/helpers.js:45 | `%` keeps the dividend's sign: equal to the mathematical remainder for a non-negative dividend, in (-b, 0] for a negative one |
| Helpers.CalculateDuration | frontend/src/utils/helpers.js:36-51 | the result is "N/A" exactly when there is no start |
| Helpers.DurationSplits | frontend/src/utils/helpers.js:42-45 | for a non-negative difference, hours*60 + minutes is the elapsed whole minutes and 0 <= minutes < 60 |
| Helpers.MinutesOnlyParses | frontend/src/utils/helpers.js:50 | "{m}m" reads back as m minutes |
| Helpers.HoursAndMinutesParse | frontend/src/utils/helpers.js:47-48 | "{h}h {m}m" reads back as h*60 + m minutes |
| Helpers.DurationRoundTrip | frontend/src/utils/helpers.js:36-51 | the text shown for a non-negative stay reads back as its elapsed whole minutes |
| Helpers.NoStartIsNA | frontend/src/utils/helpers.js:37 | no start gives "N/A"; any computed duration ends in "m" |
| Helpers.FormatCurrency | frontend/src/utils/helpers.js:54-57 | the text starts with "₹" and ends with a point and two digits |
| Helpers.CurrencyRoundTrip | frontend/src/utils/helpers.js:54-57 | a missing amount shows as "₹0.00"; every amount's text reads back as the amount |
| Helpers.GetStatusClass | frontend/src/utils/helpers.js:60-71 | the class is always one of the table's classes |
| Helpers.GetStatusClassAsWritten | frontend/src/utils/helpers.js:60-71 | an inherited member is only found under an inherited name the table does not list; for any other key the result is the own-entries class |
| Helpers.StatusClassChoice | frontend/src/utils/helpers.js:60-71 | the class ignores letter case, is the table's entry when there is one and "bg-secondary" for an unknown or missing status |
| Helpers.ReachableInheritedKeys | frontend/src/utils/helpers.js:70 | after lowering only "constructor" and "__proto__" of the inherited names can be looked up |
| Helpers.AsWrittenDiffersOnlyOnInherited | frontend/src/utils/helpers.js:70 | the lookup as written agrees with the own-entries lookup except for those two keys, where it yields the inherited member |
| Helpers.ConstructorStatusGetsNoClass | frontend/src/utils/helpers.js:70 | status "Constructor" yields the inherited constructor as written, "bg-secondary" when only own entries count |
| Helpers.OccupancyClass | frontend/src/utils/helpers.js:74-78 | the colour is one of "text-success", "text-warning", "text-danger" |
| Helpers.OccupancyBands | frontend/src/utils/helpers.js:74-78 | "text-danger" exactly from 90, "text-warning" exactly on [70, 90), "text-success" below 70 |
| Helpers.OccupancyMonotone | frontend/src/utils/helpers.js:74-78 | a higher rate never shows a calmer colour |
| Helpers.HandleApiError | frontend/src/utils/helpers.js:81-88 | the message is never empty, and is one of the error's own texts or one of the three fixed ones |
| Helpers.ApiErrorPicksFirstCandidate | frontend/src/utils/helpers.js:81-88 | the message is the first truthy candidate: response msg, then response message, then the generic text. Without a response it is the connectivity text. Otherwise it is the error's message or the fallback. It is never empty. |
| Helpers.ResponseTakesPrecedence | frontend/src/utils/helpers.js:82-85 | with a response, the request and the error's own message do not matter; without one, a sent request gives the connectivity text |
| Helpers.IsValidEmail | frontend/src/utils/helpers.js:103-106 | an accepted address has at least five characters, an '@', and does not start with '@' |
| Helpers.ValidEmailIffShape | frontend/src/utils/helpers.js:103-106 | the check accepts exactly the strings of the form `[^\s@]+@[^\s@]+\.[^\s@]+` |
| Helpers.EmailExamples | frontend/src/utils/helpers.js:103-106 | "a@b.co" is accepted and "a@b@c.co" refused |

## Left out

- Row locking (`with_for_update`, `begin_nested`), transactions, rollback and concurrent requests. Each route is one atomic step. Error paths return before the commit, so they change nothing.
- Failures of the database itself (a lost connection, a locked file) and the 500 they cause. The modelled 500 answers are a number `float()` or `int()` refuses, a delete or shrink of a spot row a reservation names, and `leave_spot` finding its spot row gone.
- JWT identity, the `admin_required` check (403) and the frontend's `isAuthenticated`/`getRole`. The user id, the sign-in flag and the role are parameters.
- The response cache (`cache.cached`, `cache.memoize`, `delete_memoized`). Every listing is computed from the current store.
- The clock (`datetime.utcnow()`, `new Date()`). Times are parameters. Creation times are taken to grow with the key, so "newest first" is reverse key order.
- Floating point. Prices, costs, the leave answer's minutes and the dashboard's occupancy rate are exact reals. The rounding of float arithmetic and of `round(..., 2)` is not modelled.
- The dashboard's revenue windows. Midnight and the first of the month are parameters. The `users` table is an input sequence.
- Capacity.CreateLot: the name, address and pincode are strings or absent. A non-string JSON name, and the NaN and infinite numbers Python's JSON reader also accepts, are not modelled. Which strings `int()` and `float()` accept is a property of the request value (`IntegerText`, `DecimalText`), not parsed from text.
- SQLite handing out a deleted highest key again. Keys come from per-table counters that never go back.
- The auth routes, the Celery tasks (reports, reminders, CSV export), app configuration and the frontend services. These are not part of this model.
- `formatDateTime`, `formatDate`, `formatTime` and `downloadBlob`. These are locale formatting and browser I/O.
- Helpers.CalculateDuration: date strings are not parsed; start and end are millisecond counts. A start of 0 counts as present.
- Helpers.FormatCurrency: amounts are exact hundredths. The float rounding of `toFixed(2)` on other values is not modelled.
- Helpers.Lower: only ASCII letters are lower-cased. Full Unicode case mapping is not modelled.
- Helpers.IsValidEmail: strings are sequences of Unicode scalar values, not UTF-16 code units.
- Router.Resolve: paths are exact, already split into segments and case-sensitive. Vue Router's case-insensitive matching, optional trailing slash, percent-decoding, query strings and hashes are not modelled.
- Helpers.HandleApiError: the response body fields are strings or absent. Non-string JSON values and a missing `data` object are not modelled.

## Findings

| source | as written | input that shows it | evidently intended | confidence | as-written member | corrected member |
|---|---|---|---|---|---|---|
| backend/routes/admin_routes.py:125-132 | an occupied spot shows `s.reservation`, the one-to-one link of backend/models.py:55. It loads the first reservation row naming the spot, whatever its status. | one spot booked by user 7 and left (reservation 1), then booked by user 8 (reservation 2, active): the listing shows reservation 1, user 7, "completed" | show the active reservation that holds the spot | not executed | AdminViews.ListSpotsShowsStaleReservation | AdminViews.CurrentListingShowsHolder |
| frontend/src/utils/helpers.js:70 | `statusMap[status?.toLowerCase()]` also finds properties every object inherits | status "Constructor" (or "__proto__"): the result is the inherited `Object` constructor, not a class name | "bg-secondary" for every status the table does not list | not executed | Helpers.ConstructorStatusGetsNoClass | Helpers.StatusClassChoice |
