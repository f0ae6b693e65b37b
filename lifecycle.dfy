/**
 * The endpoints of backend/app/routes/core.py that create and move car requests: the guest's
 * request_car, reschedule and cancel_scheduled, and the staff's assign_request and
 * update_request_status. Each is a function from the tables before the call to the tables after
 * it and the HTTP outcome; an aborted call leaves the tables as they were.
 */
module Lifecycle {
  import opened Wrappers
  import opened Text
  import opened Models
  import opened Transitions
  import opened Database
  import opened Notifs

  /** The body Flask's get_or_404 answers with. */
  const NotFound: string := "Not Found"

  const RescheduleMinSecondsBefore: int := 30
  const RescheduleMaxPerRequest: int := 3
  const RescheduleCooldownSeconds: int := 10
  const CancelMinSecondsBefore: int := 10
  const MaxScheduleMinutes: int := 120

  /** A valet may only act on requests of their own venue; a manager may act on any. */
  predicate Forbidden(user: User, venueId: int) {
    user.role == Valet && user.venueId != Some(venueId)
  }

  /** r.ticket.venue_id for the request at position k. */
  function VenueOfRequest(db: Db, k: int): int
    requires Valid(db) && 0 <= k < |db.requests|
  {
    db.tickets[db.requests[k].ticketId - 1].venueId
  }

  /** r.exit.code, None when the exit row is missing. */
  function ExitCodeOf(db: Db, exitId: int): Option<string>
    requires Valid(db)
  {
    match ExitAt(db.exits, exitId)
    case Some(x) => Some(db.exits[x].code)
    case None => None
  }

  // ---------------------------------------------------------------------------------------------
  // update_request_status

  /**
   * The guards of update_request_status in the order it checks them: a status is given, the
   * request exists, a valet belongs to its venue, the status is a member of the enum, and the
   * transition table allows the move. On success: the request's position and the target status.
   */
  function StatusChangeCheck(db: Db, user: User, reqId: int, status: Option<string>): (r: Response<(nat, Status)>)
    requires Valid(db)
    ensures r.Ok? ==> r.value.0 < |db.requests| && db.requests[r.value.0].id == reqId
    ensures r.Ok? ==> status == Some(StatusName(r.value.1)) && r.value.1 in Allowed(db.requests[r.value.0].status)
    ensures r.Ok? ==> !Forbidden(user, VenueOfRequest(db, r.value.0))
    ensures r.Fail? ==> r.code in {400, 403, 404}
  {
    if status.None? || status.value == [] then Fail(400, "status is required")
    else
      match RequestAt(db.requests, reqId)
      case None => Fail(404, NotFound)
      case Some(k) =>
        if Forbidden(user, VenueOfRequest(db, k)) then Fail(403, "forbidden")
        else
          match ParseStatus(status.value)
          case None => Fail(400, "invalid status")
          case Some(t) =>
            var cur := db.requests[k].status;
            if t !in Allowed(cur) then Fail(400, "invalid transition: " + StatusName(cur) + " -> " + StatusName(t))
            else Ok((k, t))
  }

  /**
   * One request row rewritten in place, with the status event that records its move from the
   * status it had to the status of the new row.
   */
  function RewriteRequest(db: Db, k: nat, row: Request, note: Option<string>, now: int): Db
    requires k < |db.requests|
  {
    var rq := db.requests[k];
    db.(requests := db.requests[k := row],
        events := db.events + [NewEvent(|db.events| + 1, rq.ticketId, rq.id, Some(rq.status), row.status, note, now)])
  }

  /** Rewriting a row under its own id and ticket keeps the tables valid and logs exactly one event with the next id. */
  lemma RewriteRequestEffect(db: Db, k: nat, row: Request, note: Option<string>, now: int)
    requires Valid(db) && k < |db.requests|
    requires row.id == db.requests[k].id && row.ticketId == db.requests[k].ticketId
    ensures var d := RewriteRequest(db, k, row, note, now);
      && Valid(d)
      && d.requests == db.requests[k := row]
      && |d.events| == |db.events| + 1 && d.events[..|db.events|] == db.events
      && d.events[|db.events|] == NewEvent(|db.events| + 1, row.ticketId, row.id, Some(db.requests[k].status), row.status, note, now)
      && d.tickets == db.tickets && d.outbox == db.outbox
  {
    var e := NewEvent(|db.events| + 1, row.ticketId, row.id, Some(db.requests[k].status), row.status, note, now);
    SetRequestKeepsValid(db, k, row);
    AddEventsKeepsValid(db.(requests := db.requests[k := row]), [e]);
    assert (db.events + [e])[..|db.events|] == db.events;
  }

  const AutoCloseNote: string := "Auto-closed after pickup"

  /**
   * The committed effect of an allowed move: the request takes the new status with one event;
   * PICKED_UP is closed at once with a second event and closes the ticket if it was open; READY
   * queues the "ready" message to the ticket's subscribers.
   */
  function ChangeStatus(db: Db, k: nat, t: Status, provider: string, now: int): (r: Db)
    requires Valid(db) && k < |db.requests| && t in Allowed(db.requests[k].status)
    ensures |r.requests| == |db.requests|
  {
    var rq := db.requests[k];
    if t == PickedUp then
      var e1 := NewEvent(|db.events| + 1, rq.ticketId, rq.id, Some(rq.status), t, None, now);
      var e2 := NewEvent(|db.events| + 2, rq.ticketId, rq.id, Some(PickedUp), Closed, Some(AutoCloseNote), now);
      var tk := db.tickets[rq.ticketId - 1];
      db.(requests := db.requests[k := rq.(status := Closed, updatedAt := now)],
          events := db.events + [e1, e2],
          tickets := db.tickets[rq.ticketId - 1 := tk.(closedAt := Some(tk.closedAt.GetOr(now)))])
    else
      var d := RewriteRequest(db, k, rq.(status := t, updatedAt := now), None, now);
      if t == Ready then
        QueueAndSend(d, rq.ticketId, Some(rq.id), Some(|db.events| + 1), RenderMessage("READY", ExitCodeOf(db, rq.exitId)), provider, now).db
      else d
  }

  /** update_request_status: the tables afterwards and the request as returned. */
  function UpdateStatus(db: Db, user: User, reqId: int, status: Option<string>, provider: string, now: int): (r: Step<Request>)
    requires Valid(db)
    ensures r.resp.Fail? ==> r.db == db
  {
    match StatusChangeCheck(db, user, reqId, status)
    case Fail(c, m) => Step(db, Fail(c, m))
    case Ok((k, t)) =>
      var d := ChangeStatus(db, k, t, provider, now);
      Step(d, Ok(d.requests[k]))
  }

  /**
   * Moving to PICKED_UP closes the request at once: the row rests in CLOSED, two events are
   * logged (the move, then the automatic close), the ticket gets closed_at = now only if it had
   * none (an earlier closed_at is kept), no other ticket changes, and nothing is queued.
   */
  lemma PickupEffect(db: Db, k: nat, provider: string, now: int)
    requires Valid(db) && k < |db.requests| && PickedUp in Allowed(db.requests[k].status)
    ensures var d := ChangeStatus(db, k, PickedUp, provider, now);
      var rq := db.requests[k];
      && Valid(d)
      && d.requests == db.requests[k := rq.(status := Closed, updatedAt := now)]
      && d.events == db.events + [NewEvent(|db.events| + 1, rq.ticketId, rq.id, Some(rq.status), PickedUp, None, now),
                                  NewEvent(|db.events| + 2, rq.ticketId, rq.id, Some(PickedUp), Closed, Some(AutoCloseNote), now)]
      && |d.tickets| == |db.tickets|
      && (forall j :: 0 <= j < |db.tickets| && j != rq.ticketId - 1 ==> d.tickets[j] == db.tickets[j])
      && d.tickets[rq.ticketId - 1] == db.tickets[rq.ticketId - 1].(closedAt := d.tickets[rq.ticketId - 1].closedAt)
      && (db.tickets[rq.ticketId - 1].closedAt.Some? ==> d.tickets[rq.ticketId - 1].closedAt == db.tickets[rq.ticketId - 1].closedAt)
      && (db.tickets[rq.ticketId - 1].closedAt.None? ==> d.tickets[rq.ticketId - 1].closedAt == Some(now))
      && d.outbox == db.outbox
      && d.venues == db.venues && d.exits == db.exits && d.zones == db.zones && d.subs == db.subs
  {
    var rq := db.requests[k];
    var row := rq.(status := Closed, updatedAt := now);
    var e1 := NewEvent(|db.events| + 1, rq.ticketId, rq.id, Some(rq.status), PickedUp, None, now);
    var e2 := NewEvent(|db.events| + 2, rq.ticketId, rq.id, Some(PickedUp), Closed, Some(AutoCloseNote), now);
    var tk := db.tickets[rq.ticketId - 1];
    SetRequestKeepsValid(db, k, row);
    var d1 := db.(requests := db.requests[k := row]);
    AddEventsKeepsValid(d1, [e1, e2]);
    SetTicketKeepsValid(d1.(events := db.events + [e1, e2]), rq.ticketId - 1, tk.(closedAt := Some(tk.closedAt.GetOr(now))));
  }

  /** Any other allowed move rewrites the row with one event; only READY queues notifications, and only by appending. */
  lemma MoveEffect(db: Db, k: nat, t: Status, provider: string, now: int)
    requires Valid(db) && k < |db.requests| && t in Allowed(db.requests[k].status) && t != PickedUp
    ensures var d := ChangeStatus(db, k, t, provider, now);
      var rq := db.requests[k];
      && Valid(d)
      && d.requests == db.requests[k := rq.(status := t, updatedAt := now)]
      && d.events == db.events + [NewEvent(|db.events| + 1, rq.ticketId, rq.id, Some(rq.status), t, None, now)]
      && d.tickets == db.tickets
      && (t != Ready ==> d.outbox == db.outbox)
      && (t == Ready ==> d.outbox[..|db.outbox|] == db.outbox)
  {
    var rq := db.requests[k];
    var row := rq.(status := t, updatedAt := now);
    var d0 := RewriteRequest(db, k, row, None, now);
    RewriteRequestEffect(db, k, row, None, now);
    assert d0.events == d0.events[..|db.events|] + [d0.events[|db.events|]];
    if t == Ready {
      var msg := RenderMessage("READY", ExitCodeOf(db, rq.exitId));
      QueueAndSendAppends(d0, rq.ticketId, Some(rq.id), Some(|db.events| + 1), msg, provider, now);
    }
  }

  /**
   * A successful status change rewrites exactly the one request row, appends its events with the
   * next ids (two of them, ending in CLOSED, for PICKED_UP), stamps the ticket closed on pickup,
   * queues notifications only for READY, and keeps the tables valid.
   */
  lemma UpdateStatusEffect(db: Db, user: User, reqId: int, status: Option<string>, provider: string, now: int,
                           k: nat, t: Status)
    requires Valid(db) && StatusChangeCheck(db, user, reqId, status) == Ok((k, t))
    ensures var r := UpdateStatus(db, user, reqId, status, provider, now);
      var rq := db.requests[k];
      && Valid(r.db)
      && r.resp == Ok(rq.(status := if t == PickedUp then Closed else t, updatedAt := now))
      && r.db.requests == db.requests[k := r.resp.value]
      && (t == PickedUp ==> |r.db.events| == |db.events| + 2 && r.db.events[|db.events| + 1].toStatus == Closed)
      && (t == PickedUp ==> r.db.tickets == db.tickets[rq.ticketId - 1 := db.tickets[rq.ticketId - 1].(
           closedAt := if db.tickets[rq.ticketId - 1].closedAt.Some? then db.tickets[rq.ticketId - 1].closedAt else Some(now))])
      && (t != PickedUp ==> |r.db.events| == |db.events| + 1 && r.db.tickets == db.tickets)
      && r.db.events[..|db.events|] == db.events
      && r.db.events[|db.events|] == NewEvent(|db.events| + 1, rq.ticketId, rq.id, Some(rq.status), t, None, now)
      && (t != Ready ==> r.db.outbox == db.outbox)
  {
    var d := ChangeStatus(db, k, t, provider, now);
    if t == PickedUp {
      PickupEffect(db, k, provider, now);
    } else {
      MoveEffect(db, k, t, provider, now);
    }
    assert UpdateStatus(db, user, reqId, status, provider, now) == Step(d, Ok(d.requests[k]));
  }

  /**
   * For a request that exists and a caller allowed at its venue, naming a status succeeds exactly
   * when ALLOWED_TRANSITIONS permits the move; otherwise the call fails with 400 and changes nothing.
   */
  lemma UpdateStatusFollowsTable(db: Db, user: User, k: nat, t: Status, provider: string, now: int)
    requires Valid(db) && k < |db.requests| && !Forbidden(user, VenueOfRequest(db, k))
    ensures var r := UpdateStatus(db, user, k + 1, Some(StatusName(t)), provider, now);
      && (r.resp.Ok? <==> t in Allowed(db.requests[k].status))
      && (r.resp.Fail? ==> r.resp.code == 400 && r.db == db)
  {
    StatusEnumeration();
    assert ParseStatus(StatusName(t)) == Some(t);
    assert StatusName(t) != [];
  }

  /** update_request_status keeps the one-active-request rule and never leaves a request PICKED_UP. */
  lemma UpdateStatusKeepsCoherent(db: Db, user: User, reqId: int, status: Option<string>, provider: string, now: int)
    requires Coherent(db)
    ensures Coherent(UpdateStatus(db, user, reqId, status, provider, now).db)
  {
    var c := StatusChangeCheck(db, user, reqId, status);
    if c.Ok? {
      var (k, t) := c.value;
      UpdateStatusEffect(db, user, reqId, status, provider, now, k, t);
      var rq := db.requests[k];
      ReplaceKeepsCoherent(db.requests, k, rq.(status := if t == PickedUp then Closed else t, updatedAt := now));
    }
  }

  // ---------------------------------------------------------------------------------------------
  // request_car

  /** When the guest wants the car: at the given time (scheduled_for), or after delay_minutes (None when it is not an integer). */
  datatype When = At(time: int) | After(minutes: Option<int>)

  /** The schedule checks of request_car; on success the time the new request is due, None for "now". */
  function ScheduleOf(when: When, now: int): (r: Response<Option<int>>)
    ensures r.Fail? ==> r.code == 400
    ensures when.At? ==> (r.Ok? <==> now < when.time <= now + 60 * MaxScheduleMinutes)
    ensures when.At? && r.Ok? ==> r.value == Some(when.time)
    ensures when.After? ==> (r.Ok? <==> when.minutes.Some? && 0 <= when.minutes.value <= MaxScheduleMinutes)
    ensures when.After? && r.Ok? ==> (r.value.None? <==> when.minutes.value == 0)
    ensures when.After? && r.Ok? && r.value.Some? ==> r.value.value == now + 60 * when.minutes.value
    ensures r.Ok? && r.value.Some? ==> now < r.value.value <= now + 60 * MaxScheduleMinutes
  {
    match when
    case At(ts) =>
      if ts <= now then Fail(400, "scheduled_for must be in the future")
      else if ts - now > 60 * MaxScheduleMinutes then Fail(400, "scheduled_for must be within 120 minutes")
      else Ok(Some(ts))
    case After(m) =>
      if m.None? then Fail(400, "delay_minutes must be int")
      else if m.value < 0 || m.value > MaxScheduleMinutes then Fail(400, "delay_minutes must be between 0 and 120")
      else if m.value > 0 then Ok(Some(now + 60 * m.value))
      else Ok(None)
  }

  /** Where request_car sends the car: the guest's ticket, the exit, and the zone when one was named. */
  datatype Target = Target(ticket: nat, exit: nat, zoneId: Option<int>)

  /** The exit checks of request_car once the ticket (and zone) are known: the exit exists and is at the ticket's venue. */
  function ExitTarget(tickets: seq<Ticket>, exits: seq<Exit>, ti: nat, zoneId: Option<int>, exitId: int): (r: Response<Target>)
    requires ExitIds(exits) && ti < |tickets|
    ensures r.Ok? ==> r.value.ticket == ti && r.value.zoneId == zoneId && r.value.exit < |exits|
    ensures r.Ok? ==> exits[r.value.exit].id == exitId && exits[r.value.exit].venueId == tickets[ti].venueId
    ensures r.Fail? ==> r.code in {400, 404}
  {
    match ExitAt(exits, exitId)
    case None => Fail(404, NotFound)
    case Some(xi) =>
      if exits[xi].venueId != tickets[ti].venueId then Fail(400, "exit does not belong to this venue")
      else Ok(Target(ti, xi, zoneId))
  }

  /**
   * The checks of request_car that read the tables, in its order: the ticket, an exit or a zone,
   * the zone's venue (its default exit standing in for a missing exit), the exit's venue.
   */
  function CarTarget(tickets: seq<Ticket>, exits: seq<Exit>, zones: seq<Zone>, token: string,
                     exitId: Option<int>, zoneId: Option<int>): (r: Response<Target>)
    requires ExitIds(exits) && ZoneIds(zones)
    ensures r.Ok? ==> r.value.ticket < |tickets| && TicketWithToken(tickets, token) == Some(r.value.ticket)
    ensures r.Ok? ==> r.value.exit < |exits| && exits[r.value.exit].venueId == tickets[r.value.ticket].venueId
    ensures r.Ok? ==> Truthy(exitId) || Truthy(zoneId)
    ensures r.Ok? && Truthy(exitId) ==> exits[r.value.exit].id == exitId.value
    ensures r.Ok? ==> (r.value.zoneId.Some? <==> Truthy(zoneId))
    ensures r.Ok? && Truthy(zoneId) ==>
      && r.value.zoneId == zoneId
      && 1 <= zoneId.value <= |zones|
      && zones[zoneId.value - 1].venueId == tickets[r.value.ticket].venueId
      && (!Truthy(exitId) ==> exits[r.value.exit].id == zones[zoneId.value - 1].defaultExitId)
    ensures r.Fail? ==> r.code in {400, 404}
  {
    match TicketWithToken(tickets, token)
    case None => Fail(404, "ticket not found")
    case Some(ti) =>
      if !Truthy(exitId) && !Truthy(zoneId) then Fail(400, "exit_id or zone_id is required")
      else if Truthy(zoneId) then
        match ZoneAt(zones, zoneId.value)
        case None => Fail(404, NotFound)
        case Some(zi) =>
          var z := zones[zi];
          if z.venueId != tickets[ti].venueId then Fail(400, "zone does not belong to this venue")
          else ExitTarget(tickets, exits, ti, Some(z.id), if Truthy(exitId) then exitId.value else z.defaultExitId)
      else ExitTarget(tickets, exits, ti, None, exitId.value)
  }

  /** What request_car has settled on once all its checks pass: the target and the due time. */
  datatype Plan = Plan(ticket: nat, exit: nat, zoneId: Option<int>, due: Option<int>)

  /** All the checks of request_car: the table checks first, the schedule last. */
  function CarRequestCheck(db: Db, token: string, exitId: Option<int>, zoneId: Option<int>, when: When, now: int): (r: Response<Plan>)
    requires Valid(db)
    ensures r.Ok? ==> CarTarget(db.tickets, db.exits, db.zones, token, exitId, zoneId) == Ok(Target(r.value.ticket, r.value.exit, r.value.zoneId))
    ensures r.Ok? ==> ScheduleOf(when, now) == Ok(r.value.due)
    ensures r.Fail? ==> r.code in {400, 404}
  {
    match CarTarget(db.tickets, db.exits, db.zones, token, exitId, zoneId)
    case Fail(c, m) => Fail(c, m)
    case Ok(t) =>
      match ScheduleOf(when, now)
      case Fail(c, m) => Fail(c, m)
      case Ok(due) => Ok(Plan(t.ticket, t.exit, t.zoneId, due))
  }

  /** The JSON request_car answers with: the request, and whether it was an existing active one. */
  datatype CarReply = CarReply(request: Request, idempotent: bool)

  /** The note on the event that creates a SCHEDULED request. */
  function ScheduledNote(mins: int, code: string): string {
    "Scheduled for +" + IntToString(mins) + " min at exit " + code
  }

  /** The message queued when a SCHEDULED request is created. */
  function ScheduledMessage(mins: int, code: string): string {
    Brand + "Scheduled in " + IntToString(mins) + " min for Exit " + code + "."
  }

  /**
   * The minutes request_car reports, as written, for a SCHEDULED request: int((scheduled_for - at) / 60)
   * with `at` the clock as read after the idempotency query, cut toward zero as int() cuts.
   */
  function ShownMinutes(due: int, at: int): (r: int)
    ensures due >= at ==> 0 <= r && 60 * r <= due - at < 60 * r + 60
    ensures due < at ==> r <= 0 && 60 * r - 60 < due - at <= 60 * r
  {
    if due >= at then (due - at) / 60 else -((at - due) / 60)
  }

  /** The request row request_car creates for a plan. */
  function PlannedRow(db: Db, p: Plan, now: int): (row: Request)
    requires p.ticket < |db.tickets| && p.exit < |db.exits|
    ensures row.status == (if p.due.Some? then Scheduled else Requested) && row.scheduledFor == p.due
  {
    NewRequest(|db.requests| + 1, db.tickets[p.ticket].id, db.exits[p.exit].id,
               Some(if p.due.Some? then Scheduled else Requested), p.due, p.zoneId, now)
  }

  /** The tables once the planned request and its creating event, carrying `note`, are added. */
  function Opened(db: Db, p: Plan, now: int, note: string): (d: Db)
    requires Valid(db) && p.ticket < |db.tickets| && p.exit < |db.exits|
  {
    var row := PlannedRow(db, p, now);
    db.(requests := db.requests + [row],
        events := db.events + [NewEvent(|db.events| + 1, db.tickets[p.ticket].id, row.id, None, row.status, Some(note), now)])
  }

  /** Opening a request keeps the tables valid and adds exactly the row and its event. */
  lemma OpenedEffect(db: Db, p: Plan, now: int, note: string)
    requires Valid(db) && p.ticket < |db.tickets| && p.exit < |db.exits|
    ensures var d := Opened(db, p, now, note);
      var row := PlannedRow(db, p, now);
      && Valid(d)
      && d.requests == db.requests + [row]
      && |d.events| == |db.events| + 1 && d.events[..|db.events|] == db.events
      && d.events[|db.events|].fromStatus.None? && d.events[|db.events|].toStatus == row.status
      && d.events[|db.events|].requestId == row.id && d.events[|db.events|].note == Some(note)
      && d == db.(requests := d.requests, events := d.events)
  {
    var row := PlannedRow(db, p, now);
    AddRequestKeepsValid(db, row);
    var d1 := db.(requests := db.requests + [row]);
    var e := NewEvent(|db.events| + 1, db.tickets[p.ticket].id, row.id, None, row.status, Some(note), now);
    AddEventsKeepsValid(d1, [e]);
    assert d1.(events := db.events + [e]).events[..|db.events|] == db.events;
  }

  /** The new request of request_car, SCHEDULED when due later and REQUESTED otherwise, with its creating event. */
  function CreateRequest(db: Db, p: Plan, provider: string, now: int, elapsed: nat): (r: Db)
    requires Valid(db) && p.ticket < |db.tickets| && p.exit < |db.exits|
  {
    var x := db.exits[p.exit];
    match p.due
    case Some(due) =>
      var mins := IntendedMinutes(due, now + elapsed);
      QueueAndSend(Opened(db, p, now, ScheduledNote(mins, x.code)), db.tickets[p.ticket].id, Some(|db.requests| + 1),
                   Some(|db.events| + 1), ScheduledMessage(mins, x.code), provider, now).db
    case None =>
      Opened(db, p, now, "Requested at exit " + x.code)
  }

  /** request_car: returns the ticket's active request if there is one, and creates a new one otherwise. */
  function RequestCar(db: Db, token: string, exitId: Option<int>, zoneId: Option<int>, when: When,
                      provider: string, now: int, elapsed: nat): (r: Step<CarReply>)
    requires Valid(db)
    ensures r.resp.Fail? ==> r.db == db
  {
    match CarRequestCheck(db, token, exitId, zoneId, when, now)
    case Fail(c, m) => Step(db, Fail(c, m))
    case Ok(p) =>
      var latest := LatestOf(db.requests, db.tickets[p.ticket].id);
      if latest.Some? && IsActive(db.requests[latest.value].status) then
        Step(db, Ok(CarReply(db.requests[latest.value], true)))
      else
        Step(CreateRequest(db, p, provider, now, elapsed), Ok(CarReply(PlannedRow(db, p, now), false)))
  }

  /** When the ticket's latest request is active, request_car hands that request back and changes nothing. */
  lemma RequestCarReturnsActive(db: Db, token: string, exitId: Option<int>, zoneId: Option<int>, when: When,
                                provider: string, now: int, elapsed: nat, p: Plan, k: nat)
    requires Valid(db) && CarRequestCheck(db, token, exitId, zoneId, when, now) == Ok(p)
    requires p.ticket < |db.tickets| && LatestOf(db.requests, db.tickets[p.ticket].id) == Some(k)
    requires IsActive(db.requests[k].status)
    ensures RequestCar(db, token, exitId, zoneId, when, provider, now, elapsed) == Step(db, Ok(CarReply(db.requests[k], true)))
    ensures db.requests[k].ticketId == db.tickets[p.ticket].id
  {
  }

  /**
   * The tables after creating the planned request: one request, one creating event, and
   * notifications only when scheduled. The scheduled note counts the minutes from the second
   * clock reading, `elapsed` seconds after the first.
   */
  lemma CreateRequestEffect(db: Db, p: Plan, provider: string, now: int, elapsed: nat)
    requires Valid(db) && p.ticket < |db.tickets| && p.exit < |db.exits|
    ensures var d := CreateRequest(db, p, provider, now, elapsed);
      var row := PlannedRow(db, p, now);
      && Valid(d)
      && d.requests == db.requests + [row]
      && |d.events| == |db.events| + 1 && d.events[..|db.events|] == db.events
      && d.events[|db.events|].fromStatus.None? && d.events[|db.events|].toStatus == row.status
      && d.events[|db.events|].requestId == row.id
      && (p.due.Some? ==>
           d.events[|db.events|].note == Some(ScheduledNote(IntendedMinutes(p.due.value, now + elapsed), db.exits[p.exit].code)))
      && (p.due.None? ==> d.outbox == db.outbox)
      && d.tickets == db.tickets && d.exits == db.exits && d.zones == db.zones
  {
    var x := db.exits[p.exit];
    if p.due.Some? {
      var mins := IntendedMinutes(p.due.value, now + elapsed);
      var d := Opened(db, p, now, ScheduledNote(mins, x.code));
      OpenedEffect(db, p, now, ScheduledNote(mins, x.code));
      QueueAndSendAppends(d, db.tickets[p.ticket].id, Some(|db.requests| + 1), Some(|db.events| + 1),
                          ScheduledMessage(mins, x.code), provider, now);
    } else {
      OpenedEffect(db, p, now, "Requested at exit " + x.code);
    }
  }

  /**
   * Otherwise request_car creates the planned request (SCHEDULED when it is due later, REQUESTED
   * when it is due now) over tables that stay valid, answers with it, not flagged idempotent, and
   * leaves tickets, exits and zones alone.
   */
  lemma RequestCarCreates(db: Db, token: string, exitId: Option<int>, zoneId: Option<int>, when: When,
                          provider: string, now: int, elapsed: nat, p: Plan)
    requires Valid(db) && CarRequestCheck(db, token, exitId, zoneId, when, now) == Ok(p)
    requires LatestOf(db.requests, db.tickets[p.ticket].id).None?
      || !IsActive(db.requests[LatestOf(db.requests, db.tickets[p.ticket].id).value].status)
    ensures p.ticket < |db.tickets| && p.exit < |db.exits| && (p.due.Some? ==> now < p.due.value)
    ensures var d := CreateRequest(db, p, provider, now, elapsed);
      && RequestCar(db, token, exitId, zoneId, when, provider, now, elapsed) == Step(d, Ok(CarReply(PlannedRow(db, p, now), false)))
      && Valid(d) && d.requests == db.requests + [PlannedRow(db, p, now)]
      && d.tickets == db.tickets && d.exits == db.exits && d.zones == db.zones
  {
    CreateRequestEffect(db, p, provider, now, elapsed);
  }

  /**
   * A delay of m minutes puts the new request due 60*m seconds after the first clock reading.
   * Its note counts from the second reading with the corrected rounding (`IntendedMinutes`), so
   * it reports m whenever the second reading comes less than a minute after the first; the
   * program's own cut toward zero would report m - 1 there (`ShownMinutesDropsAMinute`).
   */
  lemma RequestCarDelay(db: Db, p: Plan, m: int, provider: string, now: int, elapsed: nat)
    requires Valid(db) && p.ticket < |db.tickets| && p.exit < |db.exits|
    requires ScheduleOf(After(Some(m)), now) == Ok(p.due) && p.due.Some?
    ensures var d := CreateRequest(db, p, provider, now, elapsed);
      && PlannedRow(db, p, now).scheduledFor == Some(now + 60 * m)
      && |d.events| == |db.events| + 1
      && (elapsed < 60 ==> d.events[|db.events|].note == Some(ScheduledNote(m, db.exits[p.exit].code)))
  {
    CreateRequestEffect(db, p, provider, now, elapsed);
    if elapsed < 60 {
      IntendedMinutesShowDelay(m, now, elapsed);
    }
  }

  /**
   * The minutes request_car evidently means to report: the time left rounded up to whole
   * minutes, so that the seconds spent between the two clock readings do not cost a minute.
   */
  function IntendedMinutes(due: int, at: int): (r: int)
    ensures due > at ==> 1 <= r && 60 * (r - 1) < due - at <= 60 * r
    ensures due <= at ==> r == 0
  {
    if due > at then (due - at + 59) / 60 else 0
  }

  /** With the rounding up, a delay of m minutes is reported as m whenever the readings are under a minute apart. */
  lemma IntendedMinutesShowDelay(m: int, now: int, elapsed: nat)
    requires 1 <= m && elapsed < 60
    ensures IntendedMinutes(now + 60 * m, now + elapsed) == m
  {
    var r := IntendedMinutes(now + 60 * m, now + elapsed);
    assert 60 * (r - 1) < 60 * m - elapsed <= 60 * r;
    assert m - 1 < r;
    assert r < m + 1;
  }

  /**
   * As written, the delay is reported from the second clock reading and cut down: once any
   * time has passed since the first reading, a delay of m minutes is reported as m - 1.
   */
  lemma ShownMinutesDropsAMinute(m: int, now: int, elapsed: nat)
    requires 1 <= m && 0 < elapsed <= 60
    ensures ShownMinutes(now + 60 * m, now + elapsed) == m - 1
    ensures elapsed < 60 ==> IntendedMinutes(now + 60 * m, now + elapsed) == m
  {
    var r := ShownMinutes(now + 60 * m, now + elapsed);
    assert 60 * r <= 60 * m - elapsed < 60 * r + 60;
    assert m - 2 < r < m;
    if elapsed < 60 {
      IntendedMinutesShowDelay(m, now, elapsed);
    }
  }

  /**
   * Asking twice is harmless: whatever the first successful call answered, the same call made
   * again (at any time the schedule still accepts) answers with that same request, flagged
   * idempotent, and changes nothing.
   */
  lemma RequestCarTwice(db: Db, token: string, exitId: Option<int>, zoneId: Option<int>, when: When,
                        provider: string, now: int, elapsed: nat, later: int, elapsed2: nat)
    requires Valid(db)
    requires RequestCar(db, token, exitId, zoneId, when, provider, now, elapsed).resp.Ok?
    requires ScheduleOf(when, later).Ok?
    ensures var r1 := RequestCar(db, token, exitId, zoneId, when, provider, now, elapsed);
      Valid(r1.db) &&
      var r2 := RequestCar(r1.db, token, exitId, zoneId, when, provider, later, elapsed2);
      && r2.db == r1.db
      && r2.resp == Ok(CarReply(r1.resp.value.request, true))
  {
    var p := CarRequestCheck(db, token, exitId, zoneId, when, now).value;
    var tid := db.tickets[p.ticket].id;
    var latest := LatestOf(db.requests, tid);
    if latest.Some? && IsActive(db.requests[latest.value].status) {
      RequestCarTwiceActive(db, token, exitId, zoneId, when, provider, now, elapsed, later, elapsed2, p, latest.value);
    } else {
      RequestCarTwiceCreated(db, token, exitId, zoneId, when, provider, now, elapsed, later, elapsed2, p);
    }
  }

  /** RequestCarTwice when the first call found an active request: both calls return it. */
  lemma RequestCarTwiceActive(db: Db, token: string, exitId: Option<int>, zoneId: Option<int>, when: When,
                              provider: string, now: int, elapsed: nat, later: int, elapsed2: nat, p: Plan, k: nat)
    requires Valid(db) && CarRequestCheck(db, token, exitId, zoneId, when, now) == Ok(p)
    requires p.ticket < |db.tickets| && LatestOf(db.requests, db.tickets[p.ticket].id) == Some(k)
    requires IsActive(db.requests[k].status)
    requires ScheduleOf(when, later).Ok?
    ensures RequestCar(db, token, exitId, zoneId, when, provider, now, elapsed) == Step(db, Ok(CarReply(db.requests[k], true)))
    ensures RequestCar(db, token, exitId, zoneId, when, provider, later, elapsed2) == Step(db, Ok(CarReply(db.requests[k], true)))
  {
    SameCheckLater(db, db, token, exitId, zoneId, when, now, later);
    var p2 := CarRequestCheck(db, token, exitId, zoneId, when, later).value;
    RequestCarReturnsActive(db, token, exitId, zoneId, when, provider, now, elapsed, p, k);
    RequestCarReturnsActive(db, token, exitId, zoneId, when, provider, later, elapsed2, p2, k);
  }

  /** RequestCarTwice when the first call created a request: the second call returns the new request. */
  lemma RequestCarTwiceCreated(db: Db, token: string, exitId: Option<int>, zoneId: Option<int>, when: When,
                               provider: string, now: int, elapsed: nat, later: int, elapsed2: nat, p: Plan)
    requires Valid(db) && CarRequestCheck(db, token, exitId, zoneId, when, now) == Ok(p)
    requires LatestOf(db.requests, db.tickets[p.ticket].id).None?
      || !IsActive(db.requests[LatestOf(db.requests, db.tickets[p.ticket].id).value].status)
    requires ScheduleOf(when, later).Ok?
    ensures p.ticket < |db.tickets| && p.exit < |db.exits| && (p.due.Some? ==> now < p.due.value)
    ensures var d := CreateRequest(db, p, provider, now, elapsed);
      && Valid(d)
      && RequestCar(db, token, exitId, zoneId, when, provider, now, elapsed) == Step(d, Ok(CarReply(PlannedRow(db, p, now), false)))
      && RequestCar(d, token, exitId, zoneId, when, provider, later, elapsed2) == Step(d, Ok(CarReply(PlannedRow(db, p, now), true)))
  {
    RequestCarCreates(db, token, exitId, zoneId, when, provider, now, elapsed, p);
    var d := CreateRequest(db, p, provider, now, elapsed);
    var row := PlannedRow(db, p, now);
    SameCheckLater(db, d, token, exitId, zoneId, when, now, later);
    var p2 := CarRequestCheck(d, token, exitId, zoneId, when, later).value;
    LatestIsLast(db.requests, row, db.tickets[p.ticket].id);
    RequestCarReturnsActive(d, token, exitId, zoneId, when, provider, later, elapsed2, p2, |db.requests|);
  }

  /** The checks of request_car read only tickets, zones and exits, and the clock only through the schedule. */
  lemma SameCheckLater(db: Db, db2: Db, token: string, exitId: Option<int>, zoneId: Option<int>, when: When,
                       now: int, later: int)
    requires Valid(db) && Valid(db2) && CarRequestCheck(db, token, exitId, zoneId, when, now).Ok?
    requires db2.tickets == db.tickets && db2.exits == db.exits && db2.zones == db.zones
    requires ScheduleOf(when, later).Ok?
    ensures CarRequestCheck(db2, token, exitId, zoneId, when, later).Ok?
    ensures CarRequestCheck(db2, token, exitId, zoneId, when, later).value.ticket
         == CarRequestCheck(db, token, exitId, zoneId, when, now).value.ticket
  {
  }

  /** request_car keeps the one-active-request rule: it only creates a request when the ticket has no active one. */
  lemma RequestCarKeepsCoherent(db: Db, token: string, exitId: Option<int>, zoneId: Option<int>, when: When,
                                provider: string, now: int, elapsed: nat)
    requires Coherent(db)
    ensures Coherent(RequestCar(db, token, exitId, zoneId, when, provider, now, elapsed).db)
  {
    var c := CarRequestCheck(db, token, exitId, zoneId, when, now);
    if c.Ok? {
      var p := c.value;
      var tid := db.tickets[p.ticket].id;
      var latest := LatestOf(db.requests, tid);
      if !(latest.Some? && IsActive(db.requests[latest.value].status)) {
        RequestCarCreates(db, token, exitId, zoneId, when, provider, now, elapsed, p);
        NoneActiveBelowInactiveLatest(db.requests, tid);
        AppendKeepsCoherent(db.requests, PlannedRow(db, p, now));
      }
    }
  }

  // ---------------------------------------------------------------------------------------------
  // reschedule and cancel_scheduled

  /**
   * The checks reschedule and cancel_scheduled share: the guest's ticket exists, the request
   * exists, it belongs to that ticket, and it is SCHEDULED. On success the request's position;
   * `cancel` picks the verb of the error message.
   */
  function GuestScheduledCheck(db: Db, token: string, reqId: int, cancel: bool): (r: Response<nat>)
    requires Valid(db)
    ensures r.Ok? ==> r.value < |db.requests| && db.requests[r.value].id == reqId
    ensures r.Ok? ==> db.requests[r.value].status == Scheduled
    ensures r.Ok? ==> (TicketWithToken(db.tickets, token).Some?
                       && db.tickets[TicketWithToken(db.tickets, token).value].id == db.requests[r.value].ticketId)
    ensures r.Fail? ==> r.code in {400, 403, 404}
  {
    match TicketWithToken(db.tickets, token)
    case None => Fail(404, "ticket not found")
    case Some(ti) =>
      match RequestAt(db.requests, reqId)
      case None => Fail(404, NotFound)
      case Some(k) =>
        if db.requests[k].ticketId != db.tickets[ti].id then Fail(403, "not your request")
        else if db.requests[k].status != Scheduled then
          Fail(400, if cancel then "can only cancel SCHEDULED requests" else "can only reschedule SCHEDULED requests")
        else Ok(k)
  }

  /** The events of one request, in log order. */
  function EventsOf(es: seq<StatusEvent>, reqId: int): (r: seq<StatusEvent>)
    ensures |r| <= |es|
  {
    if es == [] then []
    else
      var last := es[|es| - 1];
      EventsOf(es[..|es| - 1], reqId) + (if last.requestId == reqId then [last] else [])
  }

  /** EventsOf keeps exactly the request's events. */
  lemma {:induction false} EventsOfMembers(es: seq<StatusEvent>, reqId: int)
    ensures forall e :: e in EventsOf(es, reqId) <==> e in es && e.requestId == reqId
  {
    if es != [] {
      var last := es[|es| - 1];
      assert es == es[..|es| - 1] + [last];
      EventsOfMembers(es[..|es| - 1], reqId);
    }
  }

  /** An event the reschedule limit counts: one of the request's, with a note matching LIKE '%Rescheduled%'. */
  predicate CountsAsReschedule(e: StatusEvent, reqId: int) {
    e.requestId == reqId && e.note.Some? && Contains(e.note.value, "Rescheduled")
  }

  /** The request's events the reschedule limit counts, in log order. */
  function ReschedulesOf(es: seq<StatusEvent>, reqId: int): (r: seq<StatusEvent>)
    ensures |r| <= |es|
  {
    if es == [] then []
    else
      var last := es[|es| - 1];
      ReschedulesOf(es[..|es| - 1], reqId) + (if CountsAsReschedule(last, reqId) then [last] else [])
  }

  /** ReschedulesOf keeps exactly the request's counted events. */
  lemma {:induction false} ReschedulesOfMembers(es: seq<StatusEvent>, reqId: int)
    ensures forall e :: e in ReschedulesOf(es, reqId) <==> e in es && CountsAsReschedule(e, reqId)
  {
    if es != [] {
      var last := es[|es| - 1];
      assert es == es[..|es| - 1] + [last];
      ReschedulesOfMembers(es[..|es| - 1], reqId);
    }
  }

  /** Logging one more event adds it to the counted reschedules exactly when it counts. */
  lemma ReschedulesOfAppend(es: seq<StatusEvent>, e: StatusEvent, reqId: int)
    ensures ReschedulesOf(es + [e], reqId) == ReschedulesOf(es, reqId) + (if CountsAsReschedule(e, reqId) then [e] else [])
  {
    assert (es + [e])[..|es|] == es;
  }

  /** The newest created_at among some events (the first row of ORDER BY created_at DESC). */
  function LastChangeAt(es: seq<StatusEvent>): (t: int)
    requires es != []
    ensures forall i :: 0 <= i < |es| ==> es[i].createdAt <= t
    ensures exists i :: 0 <= i < |es| && es[i].createdAt == t
  {
    if |es| == 1 then es[0].createdAt
    else
      var m := LastChangeAt(es[1..]);
      assert forall i :: 1 <= i < |es| ==> es[i] == es[1..][i - 1];
      if es[0].createdAt >= m then es[0].createdAt else m
  }

  /** The note of a reschedule event; it is what the limit counts. */
  function RescheduleNote(minutes: nat): (n: string)
    ensures Contains(n, "Rescheduled")
  {
    PrefixContained("Rescheduled", " to +" + NatToString(minutes) + " min");
    "Rescheduled" + (" to +" + NatToString(minutes) + " min")
  }

  /**
   * The checks reschedule makes after the shared ones, in its order: more than 30 seconds before
   * the due time, fewer than three counted reschedules, none of them in the last 10 seconds, and
   * a delay of 1 to 120 minutes. On success the delay.
   */
  function RescheduleLimits(rq: Request, es: seq<StatusEvent>, minutes: Option<int>, now: int): (r: Response<int>)
    ensures r.Ok? ==> rq.scheduledFor.None? || now < rq.scheduledFor.value - RescheduleMinSecondsBefore
    ensures r.Ok? ==> |ReschedulesOf(es, rq.id)| < RescheduleMaxPerRequest
    ensures r.Ok? ==> var done := ReschedulesOf(es, rq.id);
      forall i :: 0 <= i < |done| ==> done[i].createdAt <= now - RescheduleCooldownSeconds
    ensures r.Ok? ==> minutes == Some(r.value) && 1 <= r.value <= MaxScheduleMinutes
    ensures r.Fail? ==> r.code in {400, 429}
  {
    var done := ReschedulesOf(es, rq.id);
    if rq.scheduledFor.Some? && now >= rq.scheduledFor.value - RescheduleMinSecondsBefore then
      Fail(400, "cannot reschedule within 30 seconds of scheduled time")
    else if |done| >= RescheduleMaxPerRequest then
      Fail(400, "maximum 3 reschedules allowed for this request")
    else if done != [] && now - LastChangeAt(done) < RescheduleCooldownSeconds then
      Fail(429, "please wait 10 seconds between reschedule changes")
    else if minutes.None? then Fail(400, "delay_minutes must be int")
    else if minutes.value < 1 || minutes.value > MaxScheduleMinutes then Fail(400, "delay_minutes must be 1..120")
    else Ok(minutes.value)
  }

  /** All the checks of reschedule: the shared guest checks, then the limits. On success the request's position and the delay. */
  function RescheduleCheck(db: Db, token: string, reqId: int, minutes: Option<int>, now: int): (r: Response<(nat, int)>)
    requires Valid(db)
    ensures r.Ok? ==> GuestScheduledCheck(db, token, reqId, false) == Ok(r.value.0)
    ensures r.Ok? ==> RescheduleLimits(db.requests[r.value.0], db.events, minutes, now) == Ok(r.value.1)
    ensures r.Fail? ==> r.code in {400, 403, 404, 429}
  {
    match GuestScheduledCheck(db, token, reqId, false)
    case Fail(c, m) => Fail(c, m)
    case Ok(k) =>
      match RescheduleLimits(db.requests[k], db.events, minutes, now)
      case Fail(c, m) => Fail(c, m)
      case Ok(mins) => Ok((k, mins))
  }

  /** reschedule: moves a SCHEDULED request's due time to `minutes` from now, within the window, count and cooldown limits. */
  function Reschedule(db: Db, token: string, reqId: int, minutes: Option<int>, now: int): (r: Step<Request>)
    requires Valid(db)
    ensures r.resp.Fail? ==> r.db == db
  {
    match RescheduleCheck(db, token, reqId, minutes, now)
    case Fail(c, m) => Step(db, Fail(c, m))
    case Ok((k, mins)) =>
      var row := db.requests[k].(scheduledFor := Some(now + 60 * mins), updatedAt := now);
      Step(RewriteRequest(db, k, row, Some(RescheduleNote(mins)), now), Ok(row))
  }

  /**
   * A reschedule that passes its checks sets the new due time, logs one SCHEDULED -> SCHEDULED
   * event that the limit counts, and so never lets the count exceed three.
   */
  lemma RescheduleEffect(db: Db, token: string, reqId: int, minutes: Option<int>, now: int, k: nat, mins: int)
    requires Valid(db) && RescheduleCheck(db, token, reqId, minutes, now) == Ok((k, mins))
    ensures var r := Reschedule(db, token, reqId, minutes, now);
      && k == reqId - 1 && minutes == Some(mins)
      && r.resp == Ok(db.requests[k].(scheduledFor := Some(now + 60 * mins), updatedAt := now))
      && r.db.requests == db.requests[k := r.resp.value]
      && |r.db.events| == |db.events| + 1 && r.db.events[..|db.events|] == db.events
      && r.db.events[|db.events|].fromStatus == Some(Scheduled) && r.db.events[|db.events|].toStatus == Scheduled
      && |ReschedulesOf(r.db.events, reqId)| == |ReschedulesOf(db.events, reqId)| + 1 <= RescheduleMaxPerRequest
      && Valid(r.db)
  {
    var row := db.requests[k].(scheduledFor := Some(now + 60 * mins), updatedAt := now);
    var note := Some(RescheduleNote(mins));
    assert Reschedule(db, token, reqId, minutes, now) == Step(RewriteRequest(db, k, row, note, now), Ok(row));
    RewriteRequestEffect(db, k, row, note, now);
    var e := NewEvent(|db.events| + 1, row.ticketId, row.id, Some(Scheduled), Scheduled, note, now);
    assert RewriteRequest(db, k, row, note, now).events == db.events + [e];
    ReschedulesOfAppend(db.events, e, reqId);
  }

  /** reschedule keeps the one-active-request rule: the request stays SCHEDULED. */
  lemma RescheduleKeepsCoherent(db: Db, token: string, reqId: int, minutes: Option<int>, now: int)
    requires Coherent(db)
    ensures Coherent(Reschedule(db, token, reqId, minutes, now).db)
  {
    var c := RescheduleCheck(db, token, reqId, minutes, now);
    if c.Ok? {
      RescheduleEffect(db, token, reqId, minutes, now, c.value.0, c.value.1);
      ReplaceKeepsCoherent(db.requests, c.value.0, Reschedule(db, token, reqId, minutes, now).resp.value);
    }
  }

  /**
   * The checks cancel_scheduled makes after the shared ones, in its order: at least 10 seconds
   * after every event of the request, and more than 10 seconds before the due time.
   */
  function CancelLimits(rq: Request, es: seq<StatusEvent>, now: int): (r: Response<()>)
    ensures r.Ok? ==> var evs := EventsOf(es, rq.id);
      forall i :: 0 <= i < |evs| ==> evs[i].createdAt <= now - RescheduleCooldownSeconds
    ensures r.Ok? ==> rq.scheduledFor.None? || now < rq.scheduledFor.value - CancelMinSecondsBefore
    ensures r.Fail? ==> r.code in {400, 429}
  {
    var evs := EventsOf(es, rq.id);
    if evs != [] && now - LastChangeAt(evs) < RescheduleCooldownSeconds then
      Fail(429, "please wait 10 seconds after last change to cancel")
    else if rq.scheduledFor.Some? && now >= rq.scheduledFor.value - CancelMinSecondsBefore then
      Fail(400, "cannot cancel within 10 seconds of scheduled time")
    else Ok(())
  }

  /** All the checks of cancel_scheduled: the shared guest checks, then the limits. On success the request's position. */
  function CancelCheck(db: Db, token: string, reqId: int, now: int): (r: Response<nat>)
    requires Valid(db)
    ensures r.Ok? ==> GuestScheduledCheck(db, token, reqId, true) == Ok(r.value)
    ensures r.Ok? ==> CancelLimits(db.requests[r.value], db.events, now).Ok?
    ensures r.Fail? ==> r.code in {400, 403, 404, 429}
  {
    match GuestScheduledCheck(db, token, reqId, true)
    case Fail(c, m) => Fail(c, m)
    case Ok(k) =>
      match CancelLimits(db.requests[k], db.events, now)
      case Fail(c, m) => Fail(c, m)
      case Ok(_) => Ok(k)
  }

  /** cancel_scheduled: cancels a SCHEDULED request, outside the cooldown and the pre-due window. */
  function CancelScheduled(db: Db, token: string, reqId: int, now: int): (r: Step<Request>)
    requires Valid(db)
    ensures r.resp.Fail? ==> r.db == db
  {
    match CancelCheck(db, token, reqId, now)
    case Fail(c, m) => Step(db, Fail(c, m))
    case Ok(k) =>
      var row := db.requests[k].(status := Canceled, updatedAt := now);
      Step(RewriteRequest(db, k, row, Some("Canceled by guest"), now), Ok(row))
  }

  /** A cancel that passes its checks makes the request CANCELED with one SCHEDULED -> CANCELED event. */
  lemma CancelEffect(db: Db, token: string, reqId: int, now: int, k: nat)
    requires Valid(db) && CancelCheck(db, token, reqId, now) == Ok(k)
    ensures var r := CancelScheduled(db, token, reqId, now);
      && k == reqId - 1
      && r.resp == Ok(db.requests[k].(status := Canceled, updatedAt := now))
      && r.db.requests == db.requests[k := r.resp.value]
      && |r.db.events| == |db.events| + 1 && r.db.events[..|db.events|] == db.events
      && r.db.events[|db.events|].fromStatus == Some(Scheduled) && r.db.events[|db.events|].toStatus == Canceled
      && Valid(r.db)
  {
    var row := db.requests[k].(status := Canceled, updatedAt := now);
    assert CancelScheduled(db, token, reqId, now) == Step(RewriteRequest(db, k, row, Some("Canceled by guest"), now), Ok(row));
    RewriteRequestEffect(db, k, row, Some("Canceled by guest"), now);
  }

  /** cancel_scheduled keeps the one-active-request rule: a request only becomes inactive. */
  lemma CancelKeepsCoherent(db: Db, token: string, reqId: int, now: int)
    requires Coherent(db)
    ensures Coherent(CancelScheduled(db, token, reqId, now).db)
  {
    var c := CancelCheck(db, token, reqId, now);
    if c.Ok? {
      CancelEffect(db, token, reqId, now, c.value);
      ReplaceKeepsCoherent(db.requests, c.value, CancelScheduled(db, token, reqId, now).resp.value);
    }
  }

  // ---------------------------------------------------------------------------------------------
  // assign_request

  /** Who assign_request assigns: a valet always themself, a manager the stripped assigned_to (empty when missing). */
  function Assignee(user: User, assignedTo: Option<string>): string {
    if user.role == Valet then user.email
    else if assignedTo.Some? then Strip(assignedTo.value) else []
  }

  /**
   * The checks of assign_request in its order, with or without the transition check: the request
   * exists, there is an assignee, a valet belongs to the venue, any earlier assignee is the same
   * person, and (only with checkTable) ALLOWED_TRANSITIONS lets the request become ASSIGNED or it
   * already is. On success the request's position.
   */
  function AssignCheck(db: Db, user: User, reqId: int, assignedTo: Option<string>, checkTable: bool): (r: Response<nat>)
    requires Valid(db)
    ensures r.Ok? ==> r.value < |db.requests| && db.requests[r.value].id == reqId
    ensures r.Ok? ==> Assignee(user, assignedTo) != [] && !Forbidden(user, VenueOfRequest(db, r.value))
    ensures r.Ok? ==> var prev := db.requests[r.value].assignedTo;
      prev.None? || prev.value == [] || prev.value == Assignee(user, assignedTo)
    ensures r.Ok? && checkTable ==> db.requests[r.value].status in {Requested, Assigned}
    ensures r.Fail? ==> r.code in {400, 403, 404, 409}
  {
    match RequestAt(db.requests, reqId)
    case None => Fail(404, NotFound)
    case Some(k) =>
      var rq := db.requests[k];
      var who := Assignee(user, assignedTo);
      if who == [] then Fail(400, "assigned_to is required (string)")
      else if Forbidden(user, VenueOfRequest(db, k)) then Fail(403, "forbidden")
      else if rq.assignedTo.Some? && rq.assignedTo.value != [] && rq.assignedTo.value != who then
        Fail(409, "already assigned")
      else if checkTable && rq.status != Assigned && Assigned !in Allowed(rq.status) then
        Fail(400, "invalid transition: " + StatusName(rq.status) + " -> ASSIGNED")
      else Ok(k)
  }

  /** assign_request, with or without the transition check: the request becomes ASSIGNED to the assignee with one event. */
  function AssignWith(db: Db, user: User, reqId: int, assignedTo: Option<string>, now: int, checkTable: bool): (r: Step<Request>)
    requires Valid(db)
    ensures r.resp.Fail? ==> r.db == db
  {
    match AssignCheck(db, user, reqId, assignedTo, checkTable)
    case Fail(c, m) => Step(db, Fail(c, m))
    case Ok(k) =>
      var who := Assignee(user, assignedTo);
      var row := db.requests[k].(assignedTo := Some(who), assignedAt := Some(now), updatedAt := now, status := Assigned);
      Step(RewriteRequest(db, k, row, Some("Assigned to " + who), now), Ok(row))
  }

  /** assign_request as the endpoint is written. */
  function AssignAsWritten(db: Db, user: User, reqId: int, assignedTo: Option<string>, now: int): (r: Step<Request>)
    requires Valid(db)
  {
    AssignWith(db, user, reqId, assignedTo, now, false)
  }

  /** assign_request with the transition table enforced: the behaviour the rest of the model uses. */
  function Assign(db: Db, user: User, reqId: int, assignedTo: Option<string>, now: int): (r: Step<Request>)
    requires Valid(db)
  {
    AssignWith(db, user, reqId, assignedTo, now, true)
  }

  /**
   * As written, a manager can assign any unassigned request whatever its status: a CLOSED or
   * CANCELED request comes back as ASSIGNED.
   */
  lemma AssignAsWrittenIgnoresTable(db: Db, user: User, k: nat, who: string, now: int)
    requires Valid(db) && k < |db.requests| && user.role == Manager
    requires Strip(who) != [] && db.requests[k].assignedTo.None?
    ensures var r := AssignAsWritten(db, user, k + 1, Some(who), now);
      r.resp.Ok? && r.resp.value.status == Assigned && r.db.requests[k].status == Assigned
  {
    assert AssignCheck(db, user, k + 1, Some(who), false) == Ok(k);
  }

  /** A ticket whose first request is CLOSED and whose second is waiting. */
  function ReopenExample(): Db {
    Db([Venue(1, "Demo", Some("demo"))],
       [Exit(1, 1, "Main", "A", true)],
       [],
       [Ticket(1, 1, "tok", None, None, None, None, None, 0, None)],
       [Request(1, 1, 1, Closed, None, None, None, None, 0, 5),
        Request(2, 1, 1, Requested, None, None, None, None, 6, 6)],
       [], [], [])
  }

  /** The example is a coherent set of tables with a finished request below a waiting one of the same ticket. */
  lemma ReopenExampleFits()
    ensures var db := ReopenExample();
      && Coherent(db) && |db.requests| == 2 && db.requests[0].ticketId == db.requests[1].ticketId
      && db.requests[0].status == Closed && db.requests[0].assignedTo.None? && IsActive(db.requests[1].status)
  {
  }

  /**
   * The discrepancy: when a ticket has a finished request i below an active request j, a manager
   * assigning request i reopens it, and the ticket has two active requests afterwards.
   * ReopenExample is such a ticket.
   */
  lemma AssignReopensClosedRequest(db: Db, user: User, i: nat, j: nat, who: string, now: int)
    requires Coherent(db) && i < j < |db.requests| && db.requests[i].ticketId == db.requests[j].ticketId
    requires IsHistory(db.requests[i].status) && IsActive(db.requests[j].status)
    requires user.role == Manager && Strip(who) != [] && db.requests[i].assignedTo.None?
    ensures var r := AssignAsWritten(db, user, i + 1, Some(who), now);
      && r.resp.Ok? && r.db.requests[i].status == Assigned && r.db.requests[j] == db.requests[j]
      && !OnlyLatestActive(r.db.requests)
  {
    AssignAsWrittenIgnoresTable(db, user, i, who, now);
    var rs := AssignAsWritten(db, user, i + 1, Some(who), now).db.requests;
    assert rs[i].ticketId == rs[j].ticketId && IsActive(rs[i].status);
  }

  /**
   * The corrected assignment refuses a CLOSED or CANCELED request and changes nothing; when every
   * earlier check passes (a manager naming someone for an unassigned request) the refusal is 400.
   */
  lemma AssignRefusesFinished(db: Db, user: User, k: nat, assignedTo: Option<string>, now: int)
    requires Valid(db) && k < |db.requests| && IsHistory(db.requests[k].status)
    ensures var r := Assign(db, user, k + 1, assignedTo, now);
      && r.resp.Fail? && r.db == db
      && (user.role == Manager && Assignee(user, assignedTo) != [] && db.requests[k].assignedTo.None? ==> r.resp.code == 400)
  {
    assert AssignCheck(db, user, k + 1, assignedTo, true).Fail?;
  }

  /**
   * A successful (corrected) assignment starts from REQUESTED or ASSIGNED, keeps any earlier
   * assignee (only the same person may be assigned again), names the valet themself when a valet
   * calls, makes the request ASSIGNED and logs one event.
   */
  lemma AssignEffect(db: Db, user: User, reqId: int, assignedTo: Option<string>, now: int, k: nat)
    requires Valid(db) && AssignCheck(db, user, reqId, assignedTo, true) == Ok(k)
    ensures var r := Assign(db, user, reqId, assignedTo, now);
      var rq := db.requests[k];
      var who := Assignee(user, assignedTo);
      && k == reqId - 1
      && (rq.status == Requested || rq.status == Assigned)
      && who != []
      && (user.role == Valet ==> who == user.email && user.venueId == Some(VenueOfRequest(db, k)))
      && (user.role == Manager ==> assignedTo.Some? && who == Strip(assignedTo.value))
      && (rq.assignedTo.None? || rq.assignedTo.value == [] || rq.assignedTo.value == who)
      && r.resp == Ok(rq.(assignedTo := Some(who), assignedAt := Some(now), updatedAt := now, status := Assigned))
      && r.db.requests == db.requests[k := r.resp.value]
      && |r.db.events| == |db.events| + 1 && r.db.events[..|db.events|] == db.events
      && r.db.events[|db.events|].fromStatus == Some(rq.status) && r.db.events[|db.events|].toStatus == Assigned
      && Valid(r.db)
  {
    var who := Assignee(user, assignedTo);
    var row := db.requests[k].(assignedTo := Some(who), assignedAt := Some(now), updatedAt := now, status := Assigned);
    assert Assign(db, user, reqId, assignedTo, now) == Step(RewriteRequest(db, k, row, Some("Assigned to " + who), now), Ok(row));
    RewriteRequestEffect(db, k, row, Some("Assigned to " + who), now);
  }

  /** The corrected assignment keeps the one-active-request rule. */
  lemma AssignKeepsCoherent(db: Db, user: User, reqId: int, assignedTo: Option<string>, now: int)
    requires Coherent(db)
    ensures Coherent(Assign(db, user, reqId, assignedTo, now).db)
  {
    var c := AssignCheck(db, user, reqId, assignedTo, true);
    if c.Ok? {
      AssignEffect(db, user, reqId, assignedTo, now, c.value);
      ReplaceKeepsCoherent(db.requests, c.value, Assign(db, user, reqId, assignedTo, now).resp.value);
    }
  }
}
