# CurbKey valet core, modelled in Dafny

CurbKey is a valet-parking service. A guest holds a ticket and asks for the car from the ticket
page. The request can be due now or scheduled for later. Staff then move it through
REQUESTED, ASSIGNED, RETRIEVING, READY and PICKED_UP, and it finally rests in CLOSED, or in
CANCELED when the guest cancels a scheduled request. Every move is written to an append-only log
of status events. Guests are notified through an outbox of messages, which is drained and
retried. A guest claims a ticket through a code exchange that is rate-limited per address. The
guest page follows the log through a resumable server-sent event stream. The valet console
offers one button per allowed next step and raises browser notifications for new requests and
for cars that become READY.

This project models that core:

| file | module | what it models |
|---|---|---|
| wrappers.dfy | Wrappers | `Option`, `Response` (`Ok` or `Fail(code, message)`), `Step` (tables after a call, plus its reply) |
| text.dfy | Text | the Python and JavaScript string operations the core uses: `strip`, `split`, `upper`, `lower`, decimal digits |
| models.dfy | Models | the records of `backend/app/models.py` and their defaults |
| database.dfy | Database | the tables, their id invariants, the ORM lookups, and the one-active-request-per-ticket rule |
| transitions.dfy | Transitions | `ALLOWED_TRANSITIONS`, `ACTIVE_STATUSES`, `HISTORY_STATUSES_LIST`, and what they imply about any run |
| helpers.dfy | CoreHelpers | phone masking in the request JSON, `_slugify`, and the `list_exits` de-duplication loop |
| lifecycle.dfy | Lifecycle | `update_request_status`, `request_car`, `reschedule`, `cancel_scheduled` and `assign_request` as functions from tables to tables and reply |
| paging.dfy | Paging | `list_requests` keyset paging |
| notifs.dfy | Notifs | `_render_message`, `queue_and_send`, `subscribe`, `send_outbox_item`, `run_drain` and `retry` as functions |
| scheduler.dfy | Scheduler | `run_scheduler_tick` as a function over the rows of the due query |
| claim.dfy | Claim | the sliding-window rate limiter (a class, as the source keeps a mutable dict), and `claim_start` and `claim_confirm` |
| sse.dfy | Sse | one poll of the event stream, the frames it writes, and the cursor it advances (a class whose fields the loop updates) |
| store.dfy | Store | the ORM session as a class whose fields are the tables; each endpoint is a method that updates them in place and is proved equal to its function in Lifecycle, Notifs, Scheduler or Claim |
| config.dfy | Config | `_cors_origins` |
| valet.dfy | Valet | the console's action table, countdown, list loading and notification diff (a class for its React state) |

Time is integer seconds on the backend. The console countdown uses integer milliseconds, as
`Date.now()` does. Tables are sequences ordered by id with dense ids, so the row with id `i`
sits at position `i - 1`. Every endpoint's error path is modelled as a `Fail(code, message)`
reply that leaves the tables as they were.

## Model

| member | source | states |
|---|---|---|
| Models.ParseStatus | backend/app/models.py:13-21 | `RequestStatus(name)` succeeds exactly on the eight values, and the member found has that value; otherwise no member has it |
| Models.StatusEnumeration | backend/app/models.py:13-21 | the enum has exactly eight members with distinct values, and each value parses back to its member |
| Models.NewRequest | backend/app/models.py:99-111 | a request inserted without a status gets REQUESTED; it starts unassigned, with created_at = updated_at = now |
| Models.NewEvent | backend/app/models.py:119-129 | a status event always has its to_status; from_status is whatever is given, including NULL for a creating event |
| Models.NewOutboxItem | backend/app/models.py:144-162 | an outbox row starts PENDING with retry_count 0, not sent, with no provider id and no error |
| Transitions.TransitionsMoveForward | backend/app/routes/core.py:33-42 | every edge of the table climbs the lifecycle order, so there is no self-loop |
| Transitions.TerminalStatuses | backend/app/routes/core.py:33-42 | CLOSED and CANCELED, and only they, admit no target; PICKED_UP admits only CLOSED |
| Transitions.NothingReentersScheduled | backend/app/routes/core.py:33-42 | no edge leads into SCHEDULED |
| Transitions.ScopesPartition | backend/app/routes/core.py:44 | the active and history lists are disjoint, and PICKED_UP is the only status in neither |
| Transitions.ActiveSuccessors | backend/app/routes/core.py:33-44 | from an active status the table leads to an active status, to PICKED_UP or to CANCELED |
| Transitions.PathClimbs | backend/app/routes/core.py:33-42 | along any path through the table, the rank rises by at least one per step |
| Transitions.PathsAreShortAndSimple | backend/app/routes/core.py:33-42 | a path through the table never repeats a status and has at most seven entries |
| Text.Strip | backend/app/config.py:6 | `str.strip()`: the result has no whitespace at either end, is no longer than the input, and is empty exactly when the input is all whitespace |
| Text.StripSlice | backend/app/config.py:6 | what `strip()` keeps is one slice of the input, and everything it drops before and after that slice is whitespace |
| Text.StripFixpoint | backend/app/config.py:9 | a string with no whitespace at either end strips to itself |
| Text.JoinSplit | backend/app/config.py:9 | joining the pieces of `split(sep)` with `sep` gives the input back |
| Text.Upper | backend/app/routes/notifs.py:68 | `str.upper()` keeps the length and upper-cases each character in place |
| Text.ParseNatToString | backend/app/routes/sse.py:50 | the decimal text of a number reads back as that number |
| Text.ParseIntToString | backend/app/routes/sse.py:20 | the decimal text of an integer reads back as that integer |
| Database.RequestAt | backend/app/routes/core.py:895 | `get_or_404` on requests finds the row with that id, and finds none exactly when no row has it |
| Database.TicketWithToken | backend/app/routes/core.py:562 | the lookup by token finds the first ticket with that token, and finds none exactly when no ticket has it |
| Database.VenueWithSlug | backend/app/routes/claim.py:34 | the lookup by slug finds the first venue with that slug, and finds none exactly when no venue has it |
| Database.LatestOf | backend/app/routes/core.py:621-626 | the ticket's request with the highest id: it belongs to the ticket and no later row does; none exactly when the ticket has no request |
| Database.AtMostOneActive | backend/app/routes/core.py:620-627 | under the one-active-request rule a ticket has at most one active request, and it is the latest |
| Database.NoneActiveBelowInactiveLatest | backend/app/routes/core.py:620-627 | when a ticket's latest request is not active, none of its requests is |
| Database.ReplaceKeepsCoherent | backend/app/routes/core.py:620-627 | rewriting a request in place keeps the rule, provided it becomes active only if it was and does not rest in PICKED_UP |
| Database.AppendKeepsCoherent | backend/app/routes/core.py:620-684 | appending a request for a ticket with no active request keeps the rule |
| CoreHelpers.MaskPhone | backend/app/routes/core.py:82-88 | no phone gives nothing, a phone shorter than 4 gives "***", and any other gives "***-***-" and its last four characters |
| CoreHelpers.MaskPhoneHidesPrefix | backend/app/routes/core.py:82-88 | phones with the same last four characters mask alike |
| CoreHelpers.DashRuns | backend/app/routes/core.py:22 | the result uses only [a-z0-9-] with no two dashes in a row, is empty exactly when the input is, and keeps a leading [a-z0-9] character |
| CoreHelpers.DashRunsKeeps | backend/app/routes/core.py:22 | `re.sub(r"[^a-z0-9]+", "-", s)` keeps every [a-z0-9] character of s, in order, and adds none |
| CoreHelpers.DashRunsConcat | backend/app/routes/core.py:22 | the substitution works run by run: cut at a [a-z0-9] character, the text substitutes as its two parts do |
| CoreHelpers.DashRunsWord | backend/app/routes/core.py:22 | a word of [a-z0-9] characters only is left as it is |
| CoreHelpers.StripDashes | backend/app/routes/core.py:22 | `strip("-")` leaves no dash at either end, keeps the text free of double dashes, and changes nothing when there is no outer dash |
| CoreHelpers.StripDashesSlice | backend/app/routes/core.py:22 | what `strip("-")` keeps is one slice of its input, and what it drops on either side is only dashes |
| CoreHelpers.StripDashesKeeps | backend/app/routes/core.py:22 | `strip("-")` drops no [a-z0-9] character |
| CoreHelpers.Slugify | backend/app/routes/core.py:21-23 | the result is always a slug: non-empty, only [a-z0-9-], no outer dash and no double dash |
| CoreHelpers.SlugifyKeeps | backend/app/routes/core.py:21-23 | a name whose lower-case form has no [a-z0-9] character slugs to "venue"; any other keeps exactly the [a-z0-9] characters of its lower-case form, in order |
| CoreHelpers.SlugifyJoinsWords | backend/app/routes/core.py:21-23 | two [a-z0-9] words around any non-empty run of other characters slug to the words joined by one dash |
| CoreHelpers.SlugifyFixpoint | backend/app/routes/core.py:21-23 | a string that is already a slug slugs to itself |
| CoreHelpers.SlugifyIdempotent | backend/app/routes/core.py:21-23 | slugging twice is slugging once |
| CoreHelpers.BuildByCode | backend/app/routes/core.py:255-261 | the `by_code` loop keeps, for each code, the first exit in id order with that code |
| CoreHelpers.FromByCodeIsPick | backend/app/routes/core.py:255-262 | reading the dictionary the loop built gives the first exit of each code |
| CoreHelpers.ListExits | backend/app/routes/core.py:254-262 | the returned list is the first active exit of the venue for each of the codes A, B and C, in that order, as `PickByCode` over the venue's active exits says |
| CoreHelpers.PickByCodeShape | backend/app/routes/core.py:250-263 | list_exits returns active exits of the venue, at most one per code, in the order A, B, C, each the lowest-id exit with its code; a code is missing only when no active exit of the venue has it |
| Lifecycle.StatusChangeCheck | backend/app/routes/core.py:890-907 | the guards in their order (400 status missing, 404, 403 for a valet of another venue, 400 invalid status, 400 invalid transition); success names an existing request whose move the table allows |
| Lifecycle.RewriteRequestEffect | backend/app/routes/core.py:909-922 | rewriting one request under its own id and ticket keeps the tables valid and logs exactly one event with the next id |
| Lifecycle.UpdateStatus | backend/app/routes/core.py:889-946 | a refused update changes nothing (what a successful one writes is `Lifecycle.UpdateStatusEffect`) |
| Lifecycle.PickupEffect | backend/app/routes/core.py:924-938 | a move to PICKED_UP leaves the request CLOSED, logs the move then "Auto-closed after pickup" as PICKED_UP -> CLOSED, sets the ticket's closed_at to now only if it was unset and keeps an earlier one, changes no other ticket, and leaves venues, exits, zones, subscriptions and the outbox alone |
| Lifecycle.MoveEffect | backend/app/routes/core.py:909-945 | any other move rewrites the row with one event from the old status to the new; only READY queues notifications, and only by appending |
| Lifecycle.UpdateStatusEffect | backend/app/routes/core.py:909-945 | a successful update rewrites exactly one request row, appends its one or two events with the next ids, and keeps the tables valid |
| Lifecycle.UpdateStatusFollowsTable | backend/app/routes/core.py:904-907 | for a found request and an allowed caller, a named status succeeds exactly when the table permits the move; otherwise 400 and nothing changes |
| Lifecycle.UpdateStatusKeepsCoherent | backend/app/routes/core.py:904-938 | status updates keep the one-active-request rule and never leave a request PICKED_UP |
| Lifecycle.ScheduleOf | backend/app/routes/core.py:594-618 | delay_minutes outside 0..120 gives 400; 0 means due now; m > 0 is due 60*m seconds from now; a given scheduled_for must be in the future and within 120 minutes |
| Lifecycle.ExitTarget | backend/app/routes/core.py:590-592 | success finds the exit with that id at the ticket's venue; failures are 400 or 404 |
| Lifecycle.CarTarget | backend/app/routes/core.py:562-592 | success needs the ticket by token and an exit or a zone; a named exit is used, and otherwise the zone's default exit; a zone must be at the ticket's venue, and so must the exit; failures are 400 or 404 |
| Lifecycle.CarRequestCheck | backend/app/routes/core.py:562-618 | success gives a plan whose ticket, exit, zone and due time passed every check of request_car |
| Lifecycle.PlannedRow | backend/app/routes/core.py:636-670 | the new row is SCHEDULED with its due time when due later, and REQUESTED with no due time when due now |
| Lifecycle.RequestCar | backend/app/routes/core.py:561-684 | a refused request changes nothing |
| Lifecycle.RequestCarReturnsActive | backend/app/routes/core.py:620-632 | when the ticket's latest request is active, request_car returns it, flagged idempotent, and changes nothing |
| Lifecycle.OpenedEffect | backend/app/routes/core.py:638-657 | adding the planned request and its creating event keeps the tables valid, appends exactly the row and one event for it with from_status NULL, the row's status and the given note, and changes no other table |
| Lifecycle.CreateRequestEffect | backend/app/routes/core.py:636-684 | creation keeps the tables valid, appends the planned request and exactly one event for it with from_status NULL (a scheduled one noting the minutes left at the second clock reading, rounded up), queues nothing for a request due now, and leaves tickets, exits and zones alone |
| Lifecycle.RequestCarCreates | backend/app/routes/core.py:634-684 | otherwise the planned request is created (SCHEDULED when due later, REQUESTED when due now), returned not flagged idempotent, with tickets, exits and zones unchanged |
| Lifecycle.RequestCarDelay | backend/app/routes/core.py:617-654 | a delay of m minutes makes the request due 60*m seconds after the first clock reading, and with the corrected rounding its event reports m whenever the second reading comes less than a minute later |
| Lifecycle.ShownMinutes | backend/app/routes/core.py:638 | as written: `int()` of the minutes left, cut toward zero, so 60*r <= left < 60*r + 60 for time left and the mirror bound for time past |
| Lifecycle.ShownMinutesDropsAMinute | backend/app/routes/core.py:617-638 | as written, a delay of m minutes read back 1..60 seconds later is reported as m - 1 |
| Lifecycle.IntendedMinutes | backend/app/routes/core.py:638 | corrected: the minutes left rounded up, the least r with left <= 60*r; 0 when nothing is left |
| Lifecycle.IntendedMinutesShowDelay | backend/app/routes/core.py:617-658 | corrected: a delay of m minutes read back under a minute later is reported as m |
| Lifecycle.RequestCarTwice | backend/app/routes/core.py:620-632 | asking again after a success returns the same request, flagged idempotent, and changes nothing |
| Lifecycle.RequestCarKeepsCoherent | backend/app/routes/core.py:620-684 | request_car keeps the one-active-request rule |
| Lifecycle.GuestScheduledCheck | backend/app/routes/core.py:689-698 | success names a SCHEDULED request of the ticket with that token; failures are 400, 403 or 404 (the same guards open cancel_scheduled) |
| Lifecycle.EventsOfMembers | backend/app/routes/core.py:766-771 | the request's events are exactly the log rows naming it |
| Lifecycle.ReschedulesOfMembers | backend/app/routes/core.py:707-713 | the counted reschedules are exactly the request's events whose note contains "Rescheduled" |
| Lifecycle.ReschedulesOfAppend | backend/app/routes/core.py:707-713 | logging one more event adds it to the count exactly when it counts |
| Lifecycle.LastChangeAt | backend/app/routes/core.py:764-771 | the newest created_at among the events, and no event is newer |
| Lifecycle.RescheduleLimits | backend/app/routes/core.py:700-729 | success needs more than 30 s before the due time, fewer than 3 counted reschedules, none within the last 10 s, and a delay of 1..120 minutes; failures are 400 or 429 |
| Lifecycle.RescheduleCheck | backend/app/routes/core.py:689-729 | the shared guest checks, then the limits |
| Lifecycle.Reschedule | backend/app/routes/core.py:688-748 | a refused reschedule changes nothing |
| Lifecycle.RescheduleEffect | backend/app/routes/core.py:731-746 | success makes the request due `minutes` from now and logs one SCHEDULED -> SCHEDULED event that the limit counts, so the count never passes three |
| Lifecycle.RescheduleKeepsCoherent | backend/app/routes/core.py:731-746 | reschedule keeps the one-active-request rule |
| Lifecycle.CancelLimits | backend/app/routes/core.py:764-777 | success needs every event of the request at least 10 s old and more than 10 s left before the due time; failures are 400 or 429 |
| Lifecycle.CancelCheck | backend/app/routes/core.py:753-777 | the shared guest checks, then the limits |
| Lifecycle.CancelScheduled | backend/app/routes/core.py:752-794 | a refused cancel changes nothing |
| Lifecycle.CancelEffect | backend/app/routes/core.py:779-792 | success makes the request CANCELED with one SCHEDULED -> CANCELED event noted "Canceled by guest" |
| Lifecycle.CancelKeepsCoherent | backend/app/routes/core.py:779-792 | cancel keeps the one-active-request rule |
| Lifecycle.AssignCheck | backend/app/routes/core.py:853-866 | success names an existing request, a non-empty assignee, a caller allowed at the venue, and no other earlier assignee; with the table check the request is REQUESTED or ASSIGNED; failures are 400, 403, 404 or 409 |
| Lifecycle.AssignWith | backend/app/routes/core.py:852-884 | a refused assignment changes nothing |
| Lifecycle.AssignAsWrittenIgnoresTable | backend/app/routes/core.py:868-872 | as written, a manager can assign any unassigned request, whatever its status, and it comes back ASSIGNED |
| Lifecycle.ReopenExampleFits | backend/app/routes/core.py:852-884 | a concrete ticket with a CLOSED request below a waiting one meets the one-active-request rule |
| Lifecycle.AssignReopensClosedRequest | backend/app/routes/core.py:852-884 | as written, assigning a finished request below an active one reopens it and breaks the one-active-request rule |
| Lifecycle.AssignRefusesFinished | backend/app/routes/core.py:852-884 | the corrected assignment refuses a CLOSED or CANCELED request with 400 and changes nothing |
| Lifecycle.AssignEffect | backend/app/routes/core.py:856-882 | a corrected assignment starts from REQUESTED or ASSIGNED, keeps any earlier assignee, names a calling valet themself, makes the request ASSIGNED, and logs one event |
| Lifecycle.AssignKeepsCoherent | backend/app/routes/core.py:852-884 | the corrected assignment keeps the one-active-request rule |
| Paging.ClampLimit | backend/app/routes/core.py:814-815 | the limit is 50 when missing and otherwise clamped into 1..100 |
| Paging.ScopeNames | backend/app/routes/core.py:813-819 | a missing or empty scope means active, and "active" and "history" select their lists |
| Paging.ParseScopeWord | backend/app/routes/core.py:813-819 | a lower-case word passes strip and lower unchanged, so it selects a list exactly when it is one of the two names |
| Paging.MatchDescMembers | backend/app/routes/core.py:825-838 | the newest-first list holds exactly the requests that pass the venue, status, exit and scope filters |
| Paging.WindowShape | backend/app/routes/core.py:838-843 | a page shows the first min(limit, n) rows, and next_cursor is the last id shown exactly when more rows remain |
| Paging.ListRequests | backend/app/routes/core.py:802-847 | the call fails, with 400, exactly when the scope is not one of the two |
| Paging.ListingShape | backend/app/routes/core.py:825-838 | the listing is the filtered table newest first, cut at the cursor |
| Paging.PageShape | backend/app/routes/core.py:836-843 | a page holds min(limit, n) rows that pass the filters, with ids strictly below the cursor, in descending order; next_cursor is set exactly when more remain |
| Paging.NextPageContinues | backend/app/routes/core.py:836-843 | asking again with next_cursor gives the next rows, so two pages never overlap and leave no gap |
| Notifs.RenderMessage | backend/app/routes/notifs.py:16-26 | the fixed texts for READY (with the exit code or '?'), RETRIEVING, REQUESTED and CLOSED, else "Status update → X" |
| Notifs.ReadyMessageNamesExit | backend/app/routes/notifs.py:18-19 | the READY text names the exit code it was given, or '?' |
| Notifs.RenderMessageInjective | backend/app/routes/notifs.py:16-26 | different statuses never render the same text, whatever the exit codes |
| Notifs.SendItem | backend/app/services/notifier.py:12-38 | a non-PENDING row is unchanged; the stub provider makes PENDING SENT with sent_at and provider_id "stub"; any other provider makes it FAILED with the error |
| Notifs.SendSettles | backend/app/services/notifier.py:17-38 | after one send a row is never PENDING, and a second send changes nothing |
| Notifs.ActiveSubsOfMembers | backend/app/routes/notifs.py:30 | the query returns exactly the ticket's active subscriptions |
| Notifs.QueueAndSendAppends | backend/app/routes/notifs.py:29-54 | queue_and_send only appends to the outbox, one row per active subscription with the next ids, and leaves every other table and older row alone |
| Notifs.QueueAndSendRow | backend/app/routes/notifs.py:33-52 | the k-th new row copies the k-th subscription's channel and target, carries the message, and is SENT or FAILED, never PENDING; the returned snapshot says PENDING |
| Notifs.SubscribeFields | backend/app/routes/notifs.py:68-77 | success gives one of the four channels and a non-empty stored target; a refusal is 400 |
| Notifs.Subscribe | backend/app/routes/notifs.py:58-81 | a refused call changes nothing; success adds exactly one subscription, with the next id, and keeps the tables valid |
| Notifs.SubscribeKeepsWellFormed | backend/app/routes/notifs.py:68-77 | every stored subscription has an allowed upper-case channel and a non-empty target |
| Notifs.PickFromShape | backend/app/routes/notifs.py:134-140 | the picked rows are at most `limit` rows of the state, ascending |
| Notifs.PickComplete | backend/app/routes/notifs.py:134-140 | a row of the state is left out only when the batch is full of lower ids (the retry query picks the same way) |
| Notifs.DrainStateNames | backend/app/routes/notifs.py:158-160 | a missing or empty state means PENDING; a given state selects PENDING or FAILED by name and nothing else passes |
| Notifs.Drain | backend/app/routes/notifs.py:151-162 | a refused drain answers 400 and changes nothing |
| Notifs.CountSentBounds | backend/app/routes/notifs.py:141-146 | picking FAILED rows counts none as sent; picking PENDING rows counts all of them with the stub provider and none with any other |
| Notifs.DrainCounts | backend/app/routes/notifs.py:126-146 | queued is at most `limit` and sent ≤ queued; draining FAILED sends nothing and changes nothing; draining PENDING through the stub sends every picked row |
| Notifs.DrainTouchesOnlyPicked | backend/app/routes/notifs.py:134-145 | only the picked rows change, and a picked PENDING row is never PENDING afterwards |
| Notifs.RetryOutcome | backend/app/routes/notifs.py:179-192 | only FAILED rows created at or before the cutoff, at most `limit`, lowest ids first, become PENDING with retry_count + 1 and no error; everything else is untouched |
| Scheduler.TickEventsShape | backend/app/routes/scheduler.py:40-47 | the i-th event has the next id and moves the i-th due row SCHEDULED -> REQUESTED with note "Auto-triggered from schedule" |
| Scheduler.FlipRowEffect | backend/app/routes/scheduler.py:34-51 | promoting a row rewrites only that row to REQUESTED, logs one event, and only appends outbox rows carrying the started message |
| Scheduler.FlipRowSkips | backend/app/routes/scheduler.py:32-33 | a row that is no longer SCHEDULED is skipped and not counted |
| Scheduler.RunTickRows | backend/app/routes/scheduler.py:30-55 | over distinct SCHEDULED rows, the tick flips every one and rewrites exactly those rows |
| Scheduler.RunTickEvents | backend/app/routes/scheduler.py:40-48 | the tick keeps the log it found and appends one event per flipped row |
| Scheduler.SelectionFlipsAll | backend/app/routes/scheduler.py:19-33 | the due query's rows are distinct and SCHEDULED, so the tick flips all of them |
| Scheduler.TickFlipsOnlyDue | backend/app/routes/scheduler.py:19-55 | the count equals the rows flipped and is at most 100; only SCHEDULED rows due by now become REQUESTED, and rows not due or not SCHEDULED are unchanged |
| Scheduler.TickEventsOnePerRow | backend/app/routes/scheduler.py:40-47 | each flipped request gets exactly one event |
| Scheduler.EmptyWhenNoneDue | backend/app/routes/scheduler.py:19-27 | with no row due, the due query returns nothing |
| Scheduler.SecondTickFlipsNothing | backend/app/routes/scheduler.py:19-55 | after a tick that took every due row, a second tick with nothing newly due flips 0 and changes nothing |
| Scheduler.TickKeepsCoherent | backend/app/routes/scheduler.py:34-37 | the tick keeps the one-active-request rule |
| Scheduler.RepeatedRowFlipsOnce | backend/app/routes/scheduler.py:31-33 | a row reached a second time is skipped, so it flips once |
| Store.Session.SendOutboxItem | backend/app/services/notifier.py:12-38 | the row at the position is updated in place to the result of `Notifs.SendItem`, and nothing else changes |
| Store.Session.QueueAndSend | backend/app/routes/notifs.py:29-54 | the tables and the returned snapshots are those of `Notifs.QueueAndSend` |
| Store.Session.QueueActive | backend/app/routes/notifs.py:30-46 | one PENDING row per active subscription is appended with the next free ids, in order, exactly as `Notifs.QueueRows` builds them, and no other table changes |
| Store.Session.SendQueued | backend/app/routes/notifs.py:50-52 | each queued row, looked up by id, is sent in turn |
| Store.Session.RunDrain | backend/app/routes/notifs.py:126-146 | the loop sends the picked rows in place, as `Notifs.SendAt` says, and returns the number picked and the number that ended SENT |
| Store.Session.SendAll | backend/app/routes/notifs.py:141-145 | each picked row is sent in order as `Notifs.SendAt` says, no other table changes, and the count is the number that ended SENT |
| Store.Session.Drain | backend/app/routes/notifs.py:151-162 | the endpoint's reply and tables are those of `Notifs.Drain` |
| Store.Session.Retry | backend/app/routes/notifs.py:167-200 | the loop leaves the outbox as `Notifs.Retry` says and returns the number retried |
| Store.Session.RunSchedulerTick | backend/app/routes/scheduler.py:12-55 | the loop leaves the tables as `Scheduler.RunTick` says and returns its count |
| Store.Session.FlipOne | backend/app/routes/scheduler.py:29-52 | one due row: left alone when no longer SCHEDULED, otherwise promoted with its event and message as `Scheduler.FlipRow` says; reports whether it counted |
| Store.Session.UpdateRequestStatus | backend/app/routes/core.py:889-946 | the tables and reply are those of `Lifecycle.UpdateStatus` |
| Store.Session.ClosePickedUp | backend/app/routes/core.py:909-938 | the PICKED_UP branch updates in place to `Lifecycle.ChangeStatus` |
| Store.Session.MoveStatus | backend/app/routes/core.py:909-945 | every other move updates in place to `Lifecycle.ChangeStatus`, queuing the READY message |
| Store.Session.RewriteRequest | backend/app/routes/core.py:909-922 | one row rewritten in place and its event appended, as `Lifecycle.RewriteRequest` |
| Store.Session.Reschedule | backend/app/routes/core.py:688-748 | the tables and reply are those of `Lifecycle.Reschedule` |
| Store.Session.CancelScheduled | backend/app/routes/core.py:752-794 | the tables and reply are those of `Lifecycle.CancelScheduled` |
| Store.Session.AssignRequest | backend/app/routes/core.py:852-884 | the tables and reply are those of the corrected `Lifecycle.Assign` |
| Store.Session.RequestCar | backend/app/routes/core.py:561-684 | the tables and reply are those of `Lifecycle.RequestCar`, with the clock read at `now` and again `elapsed` seconds later |
| Store.Session.CreateRequest | backend/app/routes/core.py:636-684 | the new request and its event are appended in place, as `Lifecycle.CreateRequest` |
| Store.Session.CreateScheduled | backend/app/routes/core.py:636-662 | the SCHEDULED branch: the row, its event noting the rounded-up minutes, and the queued message, as `Lifecycle.CreateRequest` |
| Store.Session.Open | backend/app/routes/core.py:639-657 | the planned row and its creating event are appended in place, as `Lifecycle.Opened` |
| Store.Session.ClaimStart | backend/app/routes/claim.py:31-41 | the rate limit runs first; a refused call answers 429, otherwise the reply is `Claim.ClaimStart`; no table changes |
| Store.Session.ClaimConfirm | backend/app/routes/claim.py:45-89 | the rate limit runs before any validation; a refused call answers 429 and writes nothing, otherwise the tables and reply are those of `Claim.Confirm` |
| Store.Session.BindClaim | backend/app/routes/claim.py:51-89 | the ladder, then claimed_phone and claimed_at written in place, as `Claim.Confirm` |
| Claim.RecentMembers | backend/app/routes/claim.py:24 | pruning keeps exactly the timestamps after the cutoff, in order |
| Claim.RecentTwice | backend/app/routes/claim.py:24 | pruning twice with cutoffs is pruning once with the later cutoff |
| Claim.Admit | backend/app/routes/claim.py:20-27 | the kept list holds only attempts of the last five minutes; a passed call ends it with now and leaves at most 15; a refused call leaves at least 15 and adds nothing |
| Claim.AdmitIff | backend/app/routes/claim.py:23-26 | a call passes exactly when fewer than 15 attempts fall in the last five minutes |
| Claim.RefusalIsStable | backend/app/routes/claim.py:25-26 | a refused call records nothing, so an immediate retry is refused again |
| Claim.FullWindowRefuses | backend/app/routes/claim.py:25-26 | fifteen attempts inside the window block the next |
| Claim.RateLimiter.Check | backend/app/routes/claim.py:20-27 | the caller's list is updated in place as `Admit` says, every other key's list is unchanged, and no list grows past 15 |
| Claim.ListIsRecentPassed | backend/app/routes/claim.py:20-27 | with the clock moving forward, a key's list is exactly its passed calls of the last five minutes |
| Claim.WindowHoldsAtMostFifteen | backend/app/routes/claim.py:15-27 | at any call, at most 15 passed calls fall in the five minutes before it |
| Claim.ClaimStart | backend/app/routes/claim.py:34-41 | ok exactly when the venue exists and the stripped phone is non-empty; an unknown venue gives 404 "venue not found" whatever the phone |
| Claim.LatestWithCode | backend/app/routes/claim.py:61-65 | the ticket found has the venue and code, and no later ticket has both; none is found exactly when no ticket has them |
| Claim.ConfirmCheck | backend/app/routes/claim.py:52-72 | the ladder in its order: 400 for a missing phone or code, 404 venue, invalid_code, expired (a NULL expiry never expires), already_claimed |
| Claim.MaskedVehicle | backend/app/routes/claim.py:80-82 | present exactly when car_number has at least 4 characters: four bullets, then its last four characters |
| Claim.Confirm | backend/app/routes/claim.py:45-89 | a refused confirm changes nothing; success binds the phone and time to the ticket found |
| Claim.ConfirmLadder | backend/app/routes/claim.py:67-72 | invalid_code when no ticket matches; expired before already_claimed; already_claimed only for another number |
| Claim.ConfirmEffect | backend/app/routes/claim.py:74-89 | success changes only that ticket's claimed_phone and claimed_at, and replies with its token and "/t/" + token |
| Claim.BindKeepsLookup | backend/app/routes/claim.py:61-75 | binding changes nothing the lookup reads, so the same code finds the same ticket |
| Claim.SamePhoneReconfirms | backend/app/routes/claim.py:71-79 | the same phone confirms again with the same reply, and only claimed_at moves |
| Claim.OtherPhoneRefused | backend/app/routes/claim.py:71-72 | once bound, another phone gets already_claimed while the code is valid, and nothing changes |
| Sse.OfTicketShape | backend/app/routes/sse.py:30-35 | the selected rows are all of the ticket, with ids strictly ascending inside the range, and none of the ticket's rows in the range is missing |
| Sse.OfTicketTake | backend/app/routes/sse.py:35-36 | a prefix of the selection is the selection of a prefix of the table |
| Sse.Batch | backend/app/routes/sse.py:30-38 | a poll returns at most 50 rows |
| Sse.WindowShape | backend/app/routes/sse.py:30-49 | the events between two cursors are all of the ticket, ascending, and complete for that range |
| Sse.BatchIsWindow | backend/app/routes/sse.py:30-49 | a poll's batch is the window from the cursor to the id of its last event |
| Sse.BatchSelects | backend/app/routes/sse.py:30-38 | at most 50 of the ticket's events with id above last_id, strictly ascending; with fewer than 50, every such event is there |
| Sse.WindowSplit | backend/app/routes/sse.py:40-49 | two adjacent windows make the window over both ranges |
| Sse.WindowOfPrefix | backend/app/routes/sse.py:30-38 | appending events changes no window that ends inside the old log |
| Sse.FrameIdMatchesPayload | backend/app/routes/sse.py:41-52 | each frame is "id: N\n", "event: status\n", then the data, and N is the payload's id |
| Sse.OpenStream | backend/app/routes/sse.py:16-20 | 404 exactly for an unknown token; otherwise the ticket's id and last_id, which is 0 when absent or not a number |
| Sse.EventTail.Poll | backend/app/routes/sse.py:30-52 | the batch's frames are written in order, last_id moves to its last id, and what has been written stays the complete window from the starting cursor |
| Sse.EventTail.Write | backend/app/routes/sse.py:40-52 | each event's frame is written and last_id set to its id |
| Config.CleanPieces | backend/app/config.py:9 | the kept pieces are non-empty, with no surrounding whitespace and no comma, and there are no more of them than pieces |
| Config.CleanPiecesSelects | backend/app/config.py:9 | the kept list is the stripped pieces with the blank ones dropped: every kept entry is a stripped piece, in the pieces' order, and every non-blank stripped piece is kept |
| Config.CorsOriginsOf | backend/app/config.py:4-9 | "*" exactly when the variable is unset or blank; otherwise the list of the stripped comma-separated pieces with the blank ones dropped, in order |
| Config.OnlyCommaGivesNoOrigins | backend/app/config.py:6-9 | "," gives the empty list, not "*" |
| Config.CleanPiecesKeepsClean | backend/app/config.py:9 | clean pieces come through unchanged and in order |
| Config.WellFormedRoundTrip | backend/app/config.py:4-9 | clean origins joined with commas parse back to the same list |
| Valet.ActionsWithinTable | frontend/app/valet/page.tsx:38-55 | every offered action parses to a status the backend table allows, every action has a label, and PICKED_UP, CLOSED and CANCELED, and only they, offer none |
| Valet.ActionPassesStatusCheck | frontend/app/valet/page.tsx:432-439 | an offered action, pressed by a valet of the venue, passes every guard of update_request_status |
| Valet.Pad2 | frontend/app/valet/page.tsx:74 | `padStart(2, "0")` gives at least two digits |
| Valet.Pad2RoundTrip | frontend/app/valet/page.tsx:73-74 | seconds below 60 pad to exactly two digits that read back as the number |
| Valet.CountdownDueNow | frontend/app/valet/page.tsx:64-70 | "Due now" exactly when less than a whole second is left |
| Valet.CountdownReadsBack | frontend/app/valet/page.tsx:67-74 | otherwise "m:ss remaining" reads back as exactly floor((at − now)/1000) seconds |
| Valet.Merged | frontend/app/valet/page.tsx:180 | appending keeps the old list as a prefix followed by the page; otherwise the page replaces it |
| Valet.SnapshotOf | frontend/app/valet/page.tsx:223 | the snapshot pairs each listed request's id and status, in order |
| Valet.StatusIn | frontend/app/valet/page.tsx:225-226 | the Map lookup finds a status exactly when the Set holds the id |
| Valet.NoticesMembers | frontend/app/valet/page.tsx:227-233 | "New request" fires exactly for listed ids not in the snapshot; "Car ready" exactly for listed READY requests whose snapshot status was not READY |
| Valet.QuietAgainstOwnSnapshot | frontend/app/valet/page.tsx:220-236 | against the snapshot of the same list nothing fires |
| Valet.Console.Load | frontend/app/valet/page.tsx:162-182 | the error is cleared; a 401 goes to login and a failure throws, both leaving the list; a good reply merges the page and takes next_cursor |
| Valet.Console.SetStatus | frontend/app/valet/page.tsx:193-205 | a 401 goes to login and a failure throws with the response text, before any reload and leaving list, cursor and error line as they were; success reloads the first page through load: the error line is cleared, a good reply replaces the list and takes its next_cursor, and a 401 or failure of the reload goes to login or throws with its text, leaving list and cursor |
| Valet.Console.NotifyChanges | frontend/app/valet/page.tsx:220-236 | with a list and notification support, the notices are those of `Notices` (none without a snapshot, or when disabled or not granted) and the snapshot is replaced; with an empty list nothing changes |
| Valet.Console.RaiseNotices | frontend/app/valet/page.tsx:226-233 | the notices raised are exactly `Notices(prev, list)`; the list, cursor, error and snapshot are unchanged |

## Left out

- ETA, metrics and recommendation aggregates are float averages computed in SQL. The auto exit choice of `request_car`, which uses them, is not modelled: the exit or zone the guest names decides.
- ISO-8601 parsing of `scheduled_for`, and `parseUTC` on the console: both take an integer timestamp.
- Lifecycle.ScheduleOf: the `scheduled_for <= now` check is made against the integer timestamp; a value that fails to parse is not modelled.
- Python `int()` accepts whitespace, a '+' sign and '_' separators in `last_id`; the model's parser takes plain decimal text. `delay_minutes` is not parsed by the model at all: it arrives already parsed, as `After(Some(m))` for an integer and `After(None)` for a value `int()` refuses.
- Lifecycle.CreateRequestEffect: the note it promises for a SCHEDULED request gives the minutes left rounded up (`Lifecycle.IntendedMinutes`), the corrected behaviour of the Findings table, not the program's `int()` cut toward zero (`Lifecycle.ShownMinutes`). The two differ whenever the time left is not a whole number of minutes, on both ways of scheduling: for a `scheduled_for` 90 seconds away the program shows 1 and the model 2.
- Lifecycle.RequestCarDelay: its promise that the note reports m when the second clock reading comes less than a minute after the first holds for the corrected rounding only; the program as written reports m - 1 whenever any time passed (`Lifecycle.ShownMinutesDropsAMinute`).
- Store.Session.RequestCar: writes the corrected, rounded-up minutes into the note and queued message of a new SCHEDULED request, where the program writes the `int()` cut (see Lifecycle.CreateRequestEffect above).
- Store.Session.CreateRequest: same corrected rounding as Store.Session.RequestCar, for the new request it creates.
- Store.Session.CreateScheduled: same corrected rounding, in both the event note and the queued SMS text.
- Store.Session.AssignRequest: follows the corrected `Lifecycle.Assign`, which answers 400 when the transition table does not allow ASSIGNED from the current status (a CLOSED or CANCELED request, for one); the program as written sets ASSIGNED whatever the current status (`Lifecycle.AssignReopensClosedRequest` in the Findings table).
- Notifs.ActiveSubsOf: returns a ticket's active subscriptions in id order, and the outbox ids the rows get follow that order; the query in the program has no ORDER BY, so the database may return them, and number the queued rows, in another order. The set of rows queued is the same either way.
- Lifecycle.Reschedule: the `new_scheduled_for <= now` check cannot fire once the delay is 1..120, and is not modelled.
- Lifecycle.UpdateStatus: the `.get(old, set())` default of the transition table is not modelled, since the status column only ever holds enum values. The `r.status != new_status` guard is always true after the table check, because the table has no self-loop (`Transitions.TransitionsMoveForward`).
- Scheduler.RunTick: the due query is given as an input that satisfies the query's guarantees; ties of `scheduled_for` may come in any order.
- Row locking (`FOR UPDATE SKIP LOCKED`), multiple workers, and all concurrency. The tick and every endpoint run sequentially.
- The SSE generator's wall-clock loop, `time.sleep`, the 50-second limit and the HTTP response. `Sse.EventTail.Poll` is one pass of the loop. The JSON encoding of the payload and the `isoformat` of `created_at` are kept as structured data.
- Random claim codes and tokens: they are inputs.
- Microsecond timestamps: time is whole seconds on the backend. `request_car` reads the clock twice: `now` is the first reading, used for every check, the due time and the rows' timestamps; the minutes reported for a SCHEDULED request use the second reading, `now + elapsed`.
- JSON request bodies: each field arrives already typed. `exit_id` and `zone_id` are `Option<int>`, the delay is a `When`, and text fields are absent-or-string. A JSON error body is modelled as the `Fail` message. So the model does not capture what Python does with other JSON values. `int(5.7)` gives 5 and `int(True)` gives 1. The JSON string "0" is truthy, so `zone_id: "0"` passes the first check and then gets 404 from `get_or_404(int("0"))`, whereas the model's `Some(0)` is falsy and answers 400. A non-numeric `zone_id` or `exit_id` string makes `int()` raise, which the model does not produce.
- Valet.Console.NotifyChanges: the effect returns early on an empty list, and the snapshot is then not replaced. The model follows the code here, not the wider claim that the snapshot is always replaced.
- The notification titles and bodies, the countdown timer, and all other rendering and routing of the pages.
- The actual delivery and `print` of a notification: only the outbox state change is modelled.
- Notifs.Drain: a negative `limit` is not modelled, because `limit` is a `nat`. PostgreSQL rejects a negative LIMIT, and SQLite treats it as no limit.
- Notifs.Retry: a negative `limit` is not modelled, for the same reason.
- Store.Session.Drain: a negative `limit` is not modelled, for the same reason.
- Store.Session.Retry: a negative `limit` is not modelled, for the same reason.
- Store.Session.RunDrain: a negative `limit` is not modelled, for the same reason.
- Unicode case mapping: `upper` and `lower` change only the ASCII letters. `strip` does cover the Unicode whitespace that Python's `str.strip()` removes.

## Findings

| source | as written | input that shows it | evidently intended | confidence | as-written member | corrected member |
|---|---|---|---|---|---|---|
| backend/app/routes/core.py:634-658 | the minutes in the SCHEDULED note and message are computed from a second clock reading and cut toward zero by `int()` | `delay_minutes` = 5 with the second reading a few seconds after the first: 299.x seconds are left, shown as "+4 min" | report the delay the guest asked for, 5 (the minutes left rounded up) | not executed | Lifecycle.ShownMinutesDropsAMinute | Lifecycle.IntendedMinutesShowDelay |
| backend/app/routes/core.py:852-884 | `assign_request` sets ASSIGNED without consulting `ALLOWED_TRANSITIONS`, so a CLOSED or CANCELED request is reopened | a ticket whose request 1 is CLOSED and request 2 is REQUESTED; a manager assigns request 1, and the ticket then has two active requests | assigning only a REQUESTED request (or re-assigning an ASSIGNED one to the same person), as the transition table says | not executed | Lifecycle.AssignReopensClosedRequest | Lifecycle.AssignRefusesFinished |
