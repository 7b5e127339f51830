# Flash-promo marketplace: a Dafny model of its promotion core

This project models the core of a Django flash-promo marketplace in Dafny. Stores sell products. A flash promo offers one product at a discounted price during a time-of-day window to some customer segments (`new_users`, `frequent_buyers`).

Nearby customers of a targeted segment are notified once per day. A notification is a publish call plus a row in the notification log. A customer may then claim the product for a one-minute hold and complete the purchase no later than the instant the hold ends.

Periodic jobs do two things:
- dispatch the notifications of the promos live at the current time of day;
- deactivate expired promos.

Store owners and staff read statistics aggregated from the notification log. The intended product rule is that only a store's owner may create, change or delete its products. As written, an owner can also move one of their products into another owner's store (see Findings).

Everything is a pure function over an immutable `World`. The world holds a map per table, the log as a sequence, and the auto-increment counters. The clock (`now`, `today`, the time of day) is passed in. Each dispatch reads its own date, so a scan that crosses midnight gives its promos different dates. Each log row carries its own insert instant. The distance function, publish outcomes, query orders and job exceptions are inputs too:
- the distance function;
- the outcome of each publish call;
- the enumeration order of query results;
- the exceptions a job may hit.

Modules, in dependency order:

| file | module | models |
|---|---|---|
| basics.dfy | `Basics` | options, time units, money in cents, decimal rendering, sequence helpers |
| models.dfy | `Models` | the entities, their creation defaults, referential integrity, cascading deletes, store ownership |
| geo.dfy | `Geo` | the proximity test |
| segments.dfy | `Segments` | the two segment rules (reservation check and dispatcher query) |
| ledger.dfy | `Ledger` | `reserve` and `complete`, and the one-open-reservation-per-product invariant |
| dispatch.dfy | `Dispatch` | the notification dispatcher for one promo |
| tasks.dfy | `Tasks` | the activation scan, the expiry sweep, the one-promo job |
| stats.dfy | `Stats` | the owner's store statistics and the staff summary |
| products.dfy | `ProductAccess` | product permissions and the owner gate on create/update/destroy |

## Divergences kept as written

The code disagrees with itself in four places. The model keeps each behaviour as written and states it:

- `reserve` looks only at the promo's `is_active` flag. The time-of-day window that the activation scan uses plays no part (`Ledger.ReserveIgnoresWindow`).
- When a promo lists neither recognised tag, the two segment rules differ. The dispatcher builds an empty query, and that query selects every user. The reservation check rejects every user (`Segments.RulesDivergeWithoutRecognisedTags`).
- A hold ending exactly at `now` behaves two ways. It no longer blocks a new claim, because the open test is strict. It can still be completed, because the expiry test is also strict (`Ledger.BoundaryInstant`).
- The expiry sweep compares a promo's time-of-day end with a full timestamp. That comparison is a parameter (`Tasks.EndsBefore`).

Stores have no `owner` column in stores/models.py:3-9, yet stores/views.py:37 and notifications/views.py:24 read one. Ownership is therefore a map from store to user, given alongside the tables (`Models.Owners`).

## Model

| member | source | states |
|---|---|---|
| Basics.NatToStringRoundTrip | promotions/tasks.py:25 | reading back the decimal text of a count gives the count |
| Basics.FormatCents | notifications/utils.py:86 | a two-place price renders with a minus sign exactly when negative, a point, and two fraction digits |
| Basics.FormatCentsRoundTrip | notifications/utils.py:86 | the rendered price reads back as the amount, negative amounts included: after the sign, integer part times 100 plus the fraction digits is the magnitude |
| Models.NewUser | users/models.py:12-18 | a new user is `regular` unless a type is given (any string is kept), has no notification date, no coordinates, and is not staff |
| Models.NewStore | stores/models.py:3-9 | a new store is active and has neither coordinate |
| Models.NewProduct | stores/models.py:11-17 | a new product is available and has an empty description |
| Models.NewFlashPromo | promotions/models.py:5-13 | a new promo is inactive and lists no segment; its window is stored as given, even when the end precedes the start |
| Models.NewReservation | promotions/models.py:23-28 | a new reservation is not completed |
| Models.NewLog | notifications/models.py:8-24 | a new log row has type `flash_promo`, status `sent`, and no promo |
| Models.RemoveProductsWellFormed | promotions/models.py:6-25 | removing products with their promos, reservations and promo logs leaves no dangling reference |
| Models.DeleteProduct | promotions/models.py:6-24 | deleting a product deletes exactly its promos, its reservations and the logs of those promos; surviving promos and reservations are unchanged; users and stores stay; integrity is kept |
| Models.DeleteStore | stores/models.py:11-12 | deleting a store deletes exactly its products, their promos and reservations, the logs of those promos and every log naming the store; surviving products, promos and reservations are unchanged; users and the id counters stay; integrity is kept |
| Models.DeleteUser | promotions/models.py:25 | deleting a user deletes exactly that user's reservations and logs; surviving reservations are unchanged; products, promos, stores and the id counters stay |
| Models.DeletePromo | notifications/models.py:12 | deleting a promo deletes exactly the logs naming it; reservations, products, users, stores and the id counters stay |
| Geo.Position | users/models.py:17-18 | a position is known exactly when both coordinates are |
| Geo.IsUserNearStore | notifications/utils.py:60-75 | near exactly when all four coordinates are present and the distance is at most the radius, both ends included |
| Geo.MissingCoordinateIsFar | notifications/utils.py:65-67 | any missing coordinate makes the user far, whatever the radius and the distance function |
| Geo.SameSpotIsNear | notifications/utils.py:69-75 | a user at the store's own coordinates is near for every non-negative radius, given only that a point is at distance zero from itself |
| Geo.NearIsMonotoneInRadius | notifications/utils.py:75 | widening the radius never makes a near user far |
| Segments.IsUserEligible | promotions/views.py:67-76 | eligible exactly when the user type is targeted by a listed recognised tag (`new_users`→`new`, `frequent_buyers`→`frequent`) |
| Segments.SegmentQuery | notifications/utils.py:49-58 | the dispatcher's query selects exactly the targeted types, or everyone when no recognised tag is listed |
| Segments.RulesAgreeOnRecognisedTags | notifications/utils.py:53-56 | with a recognised tag listed, the dispatcher query and the reservation check select the same users |
| Segments.RulesDivergeWithoutRecognisedTags | notifications/utils.py:51-58 | with no recognised tag, the dispatcher selects every user while the reservation check admits nobody |
| Segments.RegularNeverTargeted | promotions/views.py:67-76 | a `regular` user can never reserve, and the dispatcher selects one only through the empty query |
| Ledger.Reserve | promotions/views.py:15-65 | a failed claim changes nothing; a successful one adds exactly one uncompleted reservation for this user and product, held until `now + 60` s; the invariant is kept |
| Ledger.ReserveDecision | promotions/views.py:18-49 | the answer is the first failing check in order: unknown promo 404, inactive 400, not eligible 403, not near 403, product held 409; otherwise 201 |
| Ledger.ReserveIgnoresWindow | promotions/views.py:21 | moving the promo's time window changes neither the answer nor the reservations |
| Ledger.ClaimKeepsExclusive | promotions/views.py:39-56 | inserting an open reservation for a product nobody holds keeps at most one open reservation per product |
| Ledger.ReservedIsTheOnlyHold | promotions/views.py:39-59 | after a successful claim, the caller's new reservation is the only open one on that product |
| Ledger.Complete | promotions/views.py:83-97 | unknown id 404; a hold ended strictly before `now` 400 with no change; otherwise only that reservation's completed flag is set; the invariant is kept |
| Ledger.CloseKeepsExclusive | promotions/views.py:93-94 | completing a reservation keeps at most one open reservation per product |
| Ledger.CompleteIdempotent | promotions/views.py:87-94 | completing twice gives the same tables and answer as completing once |
| Ledger.BoundaryInstant | promotions/views.py:39-94 | a hold ending exactly now no longer blocks a claim, yet it can still be completed |
| Ledger.ClockAdvanceKeepsExclusive | promotions/views.py:39-43 | letting the clock move forward keeps at most one open reservation per product |
| Ledger.RunKeepsExclusive | promotions/views.py:15-97 | any sequence of claims, completions and clock ticks keeps at most one open reservation per product |
| Dispatch.PromoMessage | notifications/utils.py:86 | the text is `Flash Promo available: `, the product name, ` at `, then the rendered price |
| Dispatch.SendNotification | notifications/utils.py:77-113 | each attempt appends exactly one row for this user, promo, store and text; it is `delivered` exactly when the publish returned and `failed` exactly when it raised |
| Dispatch.NotifyUsersLogs | notifications/utils.py:37-44 | the loop appends exactly the rows the per-user reference description predicts from the users as they were before the run |
| Dispatch.NotifyUsersUsers | notifications/utils.py:40-44 | the loop stamps today's date on exactly the users it attempts and leaves every other user as it was |
| Dispatch.ExpectedLogsPerUser | notifications/utils.py:40-42 | in a duplicate-free enumeration, each user gets one row if attempted and none otherwise |
| Dispatch.ExpectedLogsShape | notifications/utils.py:106-113 | every reference row is the attempt record of an attempted user |
| Dispatch.SendFlashPromoNotification | notifications/utils.py:28-47 | an unknown promo changes nothing; otherwise only users and logs change, old rows stay a prefix, and integrity is kept |
| Dispatch.DispatchEffect | notifications/utils.py:28-47 | per user: one row if selected, not notified today and near, otherwise none; every row names this promo and store; attempted users are stamped with today whatever the delivery status |
| Dispatch.DailyDeduplication | notifications/utils.py:36-37 | a user stamped with today is skipped; a user never notified is not excluded by the date test |
| Dispatch.SecondRunSameDaySkipsNotified | notifications/utils.py:36-44 | a second dispatch on the same day attempts nobody the first one attempted |
| Dispatch.NotifyUsersUntilPrefix | notifications/utils.py:39-113 | a loop cut short by an exception has written a prefix of the whole loop's rows, at least the rows it had before; it stamps exactly the attempted users it finished; an exception after the last user leaves the whole loop's result |
| Dispatch.UntilLogsPrefix | notifications/utils.py:39-113 | an interrupted loop's rows, including a row written just before the stamp's save raised, are a prefix of the whole loop's rows |
| Dispatch.LoopResumes | notifications/utils.py:39-44 | the whole loop writes its first users' rows, then exactly the reference rows for the remaining users |
| Dispatch.NextRowIsNext | notifications/utils.py:39-44 | after the first users, the next user is still unstamped, and if attempted their row comes first among the remaining rows |
| Dispatch.ExpectedLogsSplit | notifications/utils.py:39-44 | the reference rows of an order split in two are the rows of the first part followed by those of the second |
| Dispatch.SendFlashPromoNotificationUntil | notifications/utils.py:28-113 | a dispatch cut short by an exception keeps integrity and changes only users and logs; its rows are a prefix of the uninterrupted dispatch's rows and extend the rows before it; with an unknown promo, or an exception before any user, nothing changes; with an exception after the last user, it is the whole dispatch |
| Tasks.ReportRoundTrip | promotions/tasks.py:25 | a count report parses back to its count |
| Tasks.ErrorIsNoReport | promotions/tasks.py:26-27 | an error string never parses as a count report |
| Tasks.InvertedWindowNeverSelected | promotions/tasks.py:16-20 | a promo whose window ends before it starts is selected at no time of day |
| Tasks.ActivePromos | promotions/tasks.py:16-20 | selects exactly the promos flagged active with `start ≤ t ≤ end`, each once |
| Tasks.ActivePromosCount | promotions/tasks.py:16-25 | the number selected equals the number of live promos in the table |
| Tasks.DispatchAll | promotions/tasks.py:22-23 | dispatching promo after promo changes only users and logs and keeps older rows as a prefix |
| Tasks.CheckActivePromos | promotions/tasks.py:8-27 | dispatches each selected promo and reports `Processed <n> active promos` with `n` the number live; an exception in the dispatch of a selected promo keeps the whole dispatches before it and the part of that promo's user loop done before it; the error text never reads as a count |
| Tasks.DispatchAllSplit | promotions/tasks.py:22-23 | dispatching a sequence of promos is dispatching a prefix of it, then the rest |
| Tasks.DispatchAllResumes | promotions/tasks.py:22-23 | dispatching a sequence of promos is dispatching those before a position, then the promo there with its own date, row instants and publish outcomes, then the rest |
| Tasks.CutDispatchPrefix | promotions/tasks.py:22-27 | dispatching some promos in full and the next in part writes a prefix of the rows dispatching all of them writes |
| Tasks.ScanFaultKeepsPrefix | promotions/tasks.py:14-27 | an interrupted scan has written a prefix of the rows of the uninterrupted scan; an exception after the last dispatch keeps every dispatch |
| Tasks.CleanupExpiredPromos | promotions/tasks.py:54-71 | clears the flag of exactly the active promos ending before now, changes nothing else, and reports that count; a fault changes nothing and yields the error text |
| Tasks.CleanupNeverActivates | promotions/tasks.py:61-67 | the sweep never raises a flag; without a fault, a promo stays active exactly when it was active and not expired |
| Tasks.CleanupIdempotent | promotions/tasks.py:59-69 | a second sweep at the same instant reports 0 and changes nothing |
| Tasks.SendPromoNotification | promotions/tasks.py:42-51 | runs the dispatcher and reports the id; an exception keeps what the dispatch wrote before it and yields `Error sending notification for promo <id>: <error>`, whose id reads back as the promo id, never a success report |
| Tasks.SendErrorText | promotions/tasks.py:51 | the job's error text starts with `Error sending notification for promo `, its id reads back as the promo id, it ends with the error, and it never reads as a success report |
| Tasks.UnknownPromoReportsSent | promotions/tasks.py:47-49 | for an unknown promo id, the job still reports success and changes nothing |
| Stats.PeriodDays | notifications/views.py:20 | the period is the given number of days, or 30 |
| Stats.WindowStart | notifications/views.py:32-33 | the window starts exactly `days` whole days before now |
| Stats.WindowLogs | notifications/views.py:36-40 | keeps every row sent inside `[start, end]`, both ends included, with its multiplicity, and no other row |
| Stats.OfStore | notifications/views.py:36-37 | keeps exactly the rows of one store, with their multiplicity |
| Stats.GroupCounts | notifications/views.py:49-51 | one row per distinct key present; each row's count is the number of rows with that key and at least 1; the counts add up to the total |
| Stats.UniqueUsers | notifications/views.py:52 | the distinct users among the rows number at most the rows, and zero only when there are none |
| Stats.OwnedStores | notifications/views.py:24 | lists exactly the stores the caller owns, each once |
| Stats.StoreWindow | notifications/views.py:36-40 | the rows of one store inside the window, with their multiplicity |
| Stats.StatsFor | notifications/views.py:31-63 | total, by-status, by-day and by-type groupings of the same rows, each adding up to the total; distinct users at most the total; days strictly ascending |
| Stats.CountsByDay | notifications/views.py:53-57 | the per-day grouping with the days strictly ascending |
| Stats.StoreStatsFor | notifications/views.py:17-63 | anonymous 401; no owned store 404; several owned stores fail; a period that makes the date arithmetic overflow fails after the store lookup; otherwise the figures of the caller's single store |
| Stats.NegativePeriodCountsNothing | notifications/views.py:33-40 | a negative period gives an empty window in which nothing is counted |
| Stats.SummaryRowFor | notifications/views.py:82-88 | a store's row counts its rows, its delivered and failed rows, and exactly the distinct users among its rows; successful plus failed is at most the total |
| Stats.StoresIn | notifications/views.py:79-83 | lists exactly the stores that have a row in the window, each once |
| Stats.StoreRows | notifications/views.py:79-89 | one row per store with a row in the window, each holding that store's counts, ordered by descending total |
| Stats.AllStoresSummary | notifications/views.py:65-99 | anonymous 401; non-staff 403; for staff, a failure exactly when the period makes the date arithmetic overflow; otherwise the period, the window's dates, the number of stores with a row, and their rows |
| ProductAccess.PermissionFor | stores/views.py:15-24 | public exactly for list and retrieve |
| ProductAccess.Admitted | stores/views.py:15-24 | a request passes the permission check exactly when it is a read or the caller is authenticated |
| ProductAccess.Apply | stores/views.py:61-70 | a patch replaces exactly the fields it carries |
| ProductAccess.CreatedProduct | stores/models.py:14-16 | a created product takes the sent fields; without description or availability, it is exactly the default new product |
| ProductAccess.CreateProduct | stores/views.py:26-48 | anonymous 401; missing or zero store id 400 whatever the tables hold; unknown store 404; non-owner 403; only an owner with valid fields inserts, at the next id; every refusal changes nothing |
| ProductAccess.Gate | stores/views.py:52-57 | for update, patch and destroy: anonymous 401, then unknown product 404, then a non-owner of the product's current store 403 |
| ProductAccess.Change | stores/views.py:59 | a full update needs store, name and price; valid fields replace the product's fields; invalid fields change nothing |
| ProductAccess.UpdateProduct | stores/views.py:50-59 | a non-owner gets 403 and nothing changes; the owner's valid full update replaces exactly that product |
| ProductAccess.PartialUpdateProduct | stores/views.py:61-70 | a non-owner gets 403 and nothing changes; the owner's valid patch changes only the given fields of that product |
| ProductAccess.DestroyProduct | stores/views.py:72-81 | a non-owner gets 403 and nothing changes; the owner's delete removes the product with its promos, its reservations and the logs of those promos, and leaves every surviving row unchanged |
| ProductAccess.UpdateIsCompletePatch | stores/views.py:50-70 | a full update carrying every required field does exactly what a patch with the same fields does |
| ProductAccess.EmptyPatchChangesNothing | stores/views.py:61-70 | the owner's empty patch succeeds and changes nothing |
| ProductAccess.Serve | stores/views.py:15-81 | every handled request keeps integrity, and every refused one changes nothing |
| ProductAccess.UpdateMovesIntoForeignStore | stores/views.py:61-70 | as written, an owner's patch can move a product into a store owned by someone else |
| ProductAccess.GuardedUpdate | stores/views.py:50-70 | the corrected update: a successful one leaves the product in a store the caller owns |
| ProductAccess.GuardedStepKeepsForeignProducts | stores/views.py:26-81 | with the corrected update, no request by a user adds, removes or changes a product of a store that user does not own |
| ProductAccess.GuardedRunKeepsForeignProducts | stores/views.py:26-81 | the same holds for any sequence of requests by that user |

## Findings

| source | as written | input that shows it | evidently intended | confidence | as-written member | corrected member |
|---|---|---|---|---|---|---|
| stores/views.py:52-70 | The owner check reads the store the product is in *before* the update. The default update that follows may set `store` to any existing store. | The owner of store 1 sends a patch `{store: 2}` for their product 0, where user 2 owns store 2. The answer is 200, and product 0 now sits in store 2. | Only the store owner may put products in a store, as `create` requires at lines 37-41; so the caller must also own the store the update names. | medium; not executed | ProductAccess.UpdateMovesIntoForeignStore | ProductAccess.GuardedUpdate |

The corrected update is what `ProductAccess.ServeGuarded` uses. `ProductAccess.GuardedRunKeepsForeignProducts` proves that a user's requests never touch another owner's products. The as-written handlers stay in the model as the code's behaviour.

## Left out

- The great-circle distance (haversine over floating point). It is a `Geo.DistanceFn` parameter, and the only fact assumed of it is `dist(p, p) == 0`. Coordinates are `real`, so floating-point rounding is not modelled.
- SNS and SQS I/O: the client setup, the queue drain and `process_notification_queue`. A publish is an oracle that either returns or raises.
- Console output of the dispatcher and the publish call.
- The race between the open-reservation check and the insert in `reserve`. The two are one atomic step here, and interleavings and locking are out of scope.
- Generic CRUD routes that create reservations or promos directly, bypassing `reserve`. The exclusivity invariant is stated for `reserve` and `complete` only.
- `reserve` and `complete` by an anonymous caller. Such a call is refused with 401 before the action runs. `Ledger.Reserve` takes a known user instead, and `Ledger.Step` drops a claim by an unknown user.
- The Celery beat schedule and its intervals.
- The SQL `date(sent_at)` projection, which is a `Stats.DayOf` parameter.
- Parsing the `days` query parameter: a non-numeric value fails before any query. `days` arrives as an optional integer.
- Order among summary rows with equal totals. The database leaves it unspecified. The model sorts by descending total, and `Stats.StoreRows` states only that order.
- The 404 body of `reserve` for an unknown promo. The lookup raises the framework's own 404, which the handler at promotions/views.py:61-65 does not catch, so its `Promo not found` text is never sent. `Ledger.ReserveOutcome.ErrorMessage` is empty for that case.
- Serializers and response bodies. stores/serializers.py is not part of this model. Product field validation is taken from the field declarations in stores/models.py:13-15: the name is non-blank and at most 255 characters, the price has at most ten digits, and the store exists. Store ids sent as text are not modelled.
- `Stats.StoreStatsFor`: an owner of several stores makes the store lookup raise. The model reports that case as a distinct outcome and does not model the resulting error response further.
- Where inside the dispatch code an exception comes from (a database error, a client that cannot be built, a failed save). The model takes only its position, as a `Dispatch.LoopFault` passed in.
- A publish that succeeded before an exception at the same user. The publish leaves no trace in the tables, so the model cannot distinguish it.
- Sub-second time. Instants are whole seconds, while `timezone.now()` has microseconds. Holds, windows and the expiry tests compare whole seconds.
- `Ledger.Reserve`: reads the clock once. The source reads `timezone.now()` twice, for the open-hold test (promotions/views.py:41) and for the hold's end (promotions/views.py:51). If time passes between the reads, the hold lasts from the second read.
