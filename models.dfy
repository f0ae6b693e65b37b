/**
 * The records of the valet backend (backend/app/models.py): the request status enum and the
 * rows of the tickets, requests, status_events, notification_subscriptions and
 * notification_outbox tables, with the column defaults the ORM fills in.
 * Timestamps are integer seconds; a nullable column is an Option.
 */
module Models {
  import opened Wrappers

  /** RequestStatus: the lifecycle of one car request. */
  datatype Status = Scheduled | Requested | Assigned | Retrieving | Ready | PickedUp | Closed | Canceled

  /** The enum's string value, as stored in requests.status and status_events.*_status. */
  function StatusName(s: Status): string {
    match s
    case Scheduled => "SCHEDULED"
    case Requested => "REQUESTED"
    case Assigned => "ASSIGNED"
    case Retrieving => "RETRIEVING"
    case Ready => "READY"
    case PickedUp => "PICKED_UP"
    case Closed => "CLOSED"
    case Canceled => "CANCELED"
  }

  /** RequestStatus(name): the member with that value, or None where Python raises ValueError. */
  function ParseStatus(name: string): (r: Option<Status>)
    ensures r.Some? ==> StatusName(r.value) == name
    ensures r.None? ==> forall s :: StatusName(s) != name
  {
    if name == "SCHEDULED" then Some(Scheduled)
    else if name == "REQUESTED" then Some(Requested)
    else if name == "ASSIGNED" then Some(Assigned)
    else if name == "RETRIEVING" then Some(Retrieving)
    else if name == "READY" then Some(Ready)
    else if name == "PICKED_UP" then Some(PickedUp)
    else if name == "CLOSED" then Some(Closed)
    else if name == "CANCELED" then Some(Canceled)
    else None
  }

  const AllStatuses: set<Status> := {Scheduled, Requested, Assigned, Retrieving, Ready, PickedUp, Closed, Canceled}

  /** The enum has exactly eight members, with eight distinct values, each of which parses back. */
  lemma StatusEnumeration()
    ensures |AllStatuses| == 8 && forall s: Status :: s in AllStatuses
    ensures forall s, t :: StatusName(s) == StatusName(t) ==> s == t
    ensures forall s :: ParseStatus(StatusName(s)) == Some(s)
  {
    forall s: Status ensures s in AllStatuses {
      match s
      case Scheduled =>
      case Requested =>
      case Assigned =>
      case Retrieving =>
      case Ready =>
      case PickedUp =>
      case Closed =>
      case Canceled =>
    }
  }

  datatype Role = Valet | Manager

  /** The authenticated staff member making a call (g.user). */
  datatype User = User(email: string, role: Role, venueId: Option<int>)

  datatype Venue = Venue(id: int, name: string, slug: Option<string>)

  datatype Exit = Exit(id: int, venueId: int, name: string, code: string, isActive: bool)

  datatype Zone = Zone(id: int, venueId: int, name: string, defaultExitId: int)

  datatype Ticket = Ticket(
    id: int,
    venueId: int,
    token: string,
    carNumber: Option<string>,
    claimCode: Option<string>,
    claimCodeExpiresAt: Option<int>,
    claimedPhone: Option<string>,
    claimedAt: Option<int>,
    createdAt: int,
    closedAt: Option<int>)

  datatype Request = Request(
    id: int,
    ticketId: int,
    exitId: int,
    status: Status,
    scheduledFor: Option<int>,
    assignedTo: Option<string>,
    assignedAt: Option<int>,
    zoneId: Option<int>,
    createdAt: int,
    updatedAt: int)

  /** One row of the append-only audit log; from_status is NULL on the event that creates a request. */
  datatype StatusEvent = StatusEvent(
    id: int,
    ticketId: int,
    requestId: int,
    fromStatus: Option<Status>,
    toStatus: Status,
    note: Option<string>,
    createdAt: int)

  datatype Subscription = Subscription(
    id: int,
    ticketId: int,
    channel: string,
    target: string,
    isActive: bool,
    createdAt: int)

  datatype OutboxState = Pending | Sent | Failed

  function OutboxStateName(s: OutboxState): string {
    match s
    case Pending => "PENDING"
    case Sent => "SENT"
    case Failed => "FAILED"
  }

  datatype OutboxItem = OutboxItem(
    id: int,
    ticketId: int,
    requestId: Option<int>,
    statusEventId: Option<int>,
    channel: string,
    target: string,
    message: string,
    state: OutboxState,
    retryCount: nat,
    providerId: Option<string>,
    error: Option<string>,
    createdAt: int,
    sentAt: Option<int>)

  /**
   * A requests row inserted with only its keys, an optional status and schedule: the ORM fills in
   * status REQUESTED when none is given, no assignment, and created_at = updated_at = now.
   */
  function NewRequest(id: int, ticketId: int, exitId: int, status: Option<Status>,
                      scheduledFor: Option<int>, zoneId: Option<int>, now: int): (r: Request)
    ensures status.None? ==> r.status == Requested
    ensures status.Some? ==> r.status == status.value
    ensures r.assignedTo.None? && r.assignedAt.None? && r.createdAt == now && r.updatedAt == now
    ensures r.id == id && r.ticketId == ticketId && r.exitId == exitId
    ensures r.scheduledFor == scheduledFor && r.zoneId == zoneId
  {
    Request(id, ticketId, exitId, status.GetOr(Requested), scheduledFor, None, None, zoneId, now, now)
  }

  /** A status_events row; to_status is mandatory, from_status may be NULL. */
  function NewEvent(id: int, ticketId: int, requestId: int, from: Option<Status>, to: Status,
                    note: Option<string>, now: int): (e: StatusEvent)
    ensures e.toStatus == to && e.fromStatus == from && e.createdAt == now
    ensures e.id == id && e.ticketId == ticketId && e.requestId == requestId && e.note == note
  {
    StatusEvent(id, ticketId, requestId, from, to, note, now)
  }

  /** A notification_outbox row as queued: state PENDING, retry_count 0, not sent, no provider id, no error. */
  function NewOutboxItem(id: int, ticketId: int, requestId: Option<int>, statusEventId: Option<int>,
                         channel: string, target: string, message: string, now: int): (o: OutboxItem)
    ensures o.state == Pending && o.retryCount == 0
    ensures o.sentAt.None? && o.providerId.None? && o.error.None? && o.createdAt == now
    ensures o.id == id && o.ticketId == ticketId && o.requestId == requestId
    ensures o.statusEventId == statusEventId && o.channel == channel && o.target == target
    ensures o.message == message
  {
    OutboxItem(id, ticketId, requestId, statusEventId, channel, target, message, Pending, 0, None, None, now, None)
  }
}
