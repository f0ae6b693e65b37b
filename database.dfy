/**
 * The tables the core reads and writes, as the ORM session sees them: one sequence of rows per
 * table in ascending primary-key order, plus the lookups the endpoints make and the integrity the
 * database itself guarantees (autoincrement keys, the requests.ticket_id and zones.default_exit_id
 * foreign keys).
 */
module Database {
  import opened Wrappers
  import opened Models
  import opened Transitions

  datatype Db = Db(
    venues: seq<Venue>,
    exits: seq<Exit>,
    zones: seq<Zone>,
    tickets: seq<Ticket>,
    requests: seq<Request>,
    events: seq<StatusEvent>,
    subs: seq<Subscription>,
    outbox: seq<OutboxItem>)

  /** What an endpoint leaves behind: the committed tables and its HTTP outcome. */
  datatype Step<T> = Step(db: Db, resp: Response<T>)

  predicate VenueIds(vs: seq<Venue>) { forall k :: 0 <= k < |vs| ==> vs[k].id == k + 1 }
  predicate ExitIds(xs: seq<Exit>) { forall k :: 0 <= k < |xs| ==> xs[k].id == k + 1 }
  predicate ZoneIds(zs: seq<Zone>) { forall k :: 0 <= k < |zs| ==> zs[k].id == k + 1 }
  predicate TicketIds(ts: seq<Ticket>) { forall k :: 0 <= k < |ts| ==> ts[k].id == k + 1 }
  predicate RequestIds(rs: seq<Request>) { forall k :: 0 <= k < |rs| ==> rs[k].id == k + 1 }
  predicate EventIds(es: seq<StatusEvent>) { forall k :: 0 <= k < |es| ==> es[k].id == k + 1 }
  predicate SubIds(ss: seq<Subscription>) { forall k :: 0 <= k < |ss| ==> ss[k].id == k + 1 }
  predicate OutboxIds(os: seq<OutboxItem>) { forall k :: 0 <= k < |os| ==> os[k].id == k + 1 }

  /** Integrity the database enforces: autoincrement keys from 1 with no deletions, and the foreign keys the endpoints follow. */
  predicate Valid(db: Db) {
    VenueIds(db.venues) && ExitIds(db.exits) && ZoneIds(db.zones) && TicketIds(db.tickets)
    && RequestIds(db.requests) && EventIds(db.events) && SubIds(db.subs) && OutboxIds(db.outbox)
    && (forall k :: 0 <= k < |db.requests| ==> 1 <= db.requests[k].ticketId <= |db.tickets|)
    && (forall k :: 0 <= k < |db.zones| ==> db.zones[k].defaultExitId >= 1)
  }

  /** Query.get(id) on requests: the position of the row with that key. */
  function RequestAt(rs: seq<Request>, id: int): (r: Option<nat>)
    requires RequestIds(rs)
    ensures r.Some? ==> r.value < |rs| && rs[r.value].id == id
    ensures r.None? ==> forall k :: 0 <= k < |rs| ==> rs[k].id != id
  {
    if 1 <= id <= |rs| then Some(id - 1) else None
  }

  function ExitAt(xs: seq<Exit>, id: int): (r: Option<nat>)
    requires ExitIds(xs)
    ensures r.Some? ==> r.value < |xs| && xs[r.value].id == id
    ensures r.None? ==> forall k :: 0 <= k < |xs| ==> xs[k].id != id
  {
    if 1 <= id <= |xs| then Some(id - 1) else None
  }

  function ZoneAt(zs: seq<Zone>, id: int): (r: Option<nat>)
    requires ZoneIds(zs)
    ensures r.Some? ==> r.value < |zs| && zs[r.value].id == id
    ensures r.None? ==> forall k :: 0 <= k < |zs| ==> zs[k].id != id
  {
    if 1 <= id <= |zs| then Some(id - 1) else None
  }

  /** Ticket.query.filter_by(token=token).first(). */
  function TicketWithToken(ts: seq<Ticket>, token: string): (r: Option<nat>)
    ensures r.Some? ==> r.value < |ts| && ts[r.value].token == token
    ensures r.Some? ==> forall k :: 0 <= k < r.value ==> ts[k].token != token
    ensures r.None? ==> forall k :: 0 <= k < |ts| ==> ts[k].token != token
  {
    if ts == [] then None
    else if ts[0].token == token then Some(0)
    else match TicketWithToken(ts[1..], token)
      case None => None
      case Some(k) => Some(k + 1)
  }

  /** Venue.query.filter_by(slug=slug).first(). */
  function VenueWithSlug(vs: seq<Venue>, slug: string): (r: Option<nat>)
    ensures r.Some? ==> r.value < |vs| && vs[r.value].slug == Some(slug)
    ensures r.Some? ==> forall k :: 0 <= k < r.value ==> vs[k].slug != Some(slug)
    ensures r.None? ==> forall k :: 0 <= k < |vs| ==> vs[k].slug != Some(slug)
  {
    if vs == [] then None
    else if vs[0].slug == Some(slug) then Some(0)
    else match VenueWithSlug(vs[1..], slug)
      case None => None
      case Some(k) => Some(k + 1)
  }

  /** The ticket's request with the highest id: the last of its rows in the table. */
  function LatestOf(rs: seq<Request>, ticketId: int): (r: Option<nat>)
    ensures r.Some? ==> r.value < |rs| && rs[r.value].ticketId == ticketId
    ensures r.Some? ==> forall k :: r.value < k < |rs| ==> rs[k].ticketId != ticketId
    ensures r.None? ==> forall k :: 0 <= k < |rs| ==> rs[k].ticketId != ticketId
  {
    if rs == [] then None
    else if rs[|rs| - 1].ticketId == ticketId then Some(|rs| - 1)
    else LatestOf(rs[..|rs| - 1], ticketId)
  }

  /** A request just appended is its ticket's latest. */
  lemma LatestIsLast(rs: seq<Request>, r: Request, ticketId: int)
    requires r.ticketId == ticketId
    ensures LatestOf(rs + [r], ticketId) == Some(|rs|)
  {
  }

  /** Only the latest request of a ticket may be active: the one-active-request-per-ticket rule. */
  predicate OnlyLatestActive(rs: seq<Request>) {
    forall i, j :: 0 <= i < j < |rs| && rs[i].ticketId == rs[j].ticketId ==> !IsActive(rs[i].status)
  }

  /** PICKED_UP is never a resting status: the status update closes the request in the same commit. */
  predicate NoneAtPickedUp(rs: seq<Request>) {
    forall k :: 0 <= k < |rs| ==> rs[k].status != PickedUp
  }

  /** The invariant every endpoint of the request lifecycle keeps. */
  predicate Coherent(db: Db) {
    Valid(db) && OnlyLatestActive(db.requests) && NoneAtPickedUp(db.requests)
  }

  /** Under OnlyLatestActive a ticket has at most one active request, and it is the latest. */
  lemma AtMostOneActive(rs: seq<Request>, i: int, j: int)
    requires OnlyLatestActive(rs)
    requires 0 <= i < |rs| && 0 <= j < |rs| && rs[i].ticketId == rs[j].ticketId
    requires IsActive(rs[i].status) && IsActive(rs[j].status)
    ensures i == j && LatestOf(rs, rs[i].ticketId) == Some(i)
  {
  }

  /** When the latest request of a ticket is not active, none of its requests is. */
  lemma NoneActiveBelowInactiveLatest(rs: seq<Request>, ticketId: int)
    requires OnlyLatestActive(rs)
    requires LatestOf(rs, ticketId).None? || !IsActive(rs[LatestOf(rs, ticketId).value].status)
    ensures forall k :: 0 <= k < |rs| && rs[k].ticketId == ticketId ==> !IsActive(rs[k].status)
  {
    forall k | 0 <= k < |rs| && rs[k].ticketId == ticketId ensures !IsActive(rs[k].status) {
      var l := LatestOf(rs, ticketId);
      if l.value != k {
        assert k < l.value;
      }
    }
  }

  /**
   * Rewriting one request in place, keeping its ticket, cannot break the per-ticket rule as long as
   * the new status is active only when the old one was, and does not rest in PICKED_UP.
   */
  lemma {:induction false} ReplaceKeepsCoherent(rs: seq<Request>, k: int, r: Request)
    requires OnlyLatestActive(rs) && NoneAtPickedUp(rs)
    requires 0 <= k < |rs| && r.ticketId == rs[k].ticketId
    requires IsActive(r.status) ==> IsActive(rs[k].status)
    requires r.status != PickedUp
    ensures OnlyLatestActive(rs[k := r]) && NoneAtPickedUp(rs[k := r])
  {
    var rs' := rs[k := r];
    forall i, j | 0 <= i < j < |rs'| && rs'[i].ticketId == rs'[j].ticketId
      ensures !IsActive(rs'[i].status)
    {
      assert rs[i].ticketId == rs[j].ticketId;
    }
  }

  /** Appending a request whose ticket has no active request keeps the per-ticket rule. */
  lemma AppendKeepsCoherent(rs: seq<Request>, r: Request)
    requires OnlyLatestActive(rs) && NoneAtPickedUp(rs)
    requires forall k :: 0 <= k < |rs| && rs[k].ticketId == r.ticketId ==> !IsActive(rs[k].status)
    requires r.status != PickedUp
    ensures OnlyLatestActive(rs + [r]) && NoneAtPickedUp(rs + [r])
  {
  }

  /** Rewriting a request in place, keeping its id and ticket, keeps the tables valid. */
  lemma SetRequestKeepsValid(db: Db, k: int, r: Request)
    requires Valid(db) && 0 <= k < |db.requests|
    requires r.id == db.requests[k].id && r.ticketId == db.requests[k].ticketId
    ensures Valid(db.(requests := db.requests[k := r]))
  {
  }

  /** Appending a request with the next id and an existing ticket keeps the tables valid. */
  lemma AddRequestKeepsValid(db: Db, r: Request)
    requires Valid(db) && r.id == |db.requests| + 1 && 1 <= r.ticketId <= |db.tickets|
    ensures Valid(db.(requests := db.requests + [r]))
  {
  }

  /** Appending events with the next ids keeps the tables valid. */
  lemma AddEventsKeepsValid(db: Db, es: seq<StatusEvent>)
    requires Valid(db) && forall i :: 0 <= i < |es| ==> es[i].id == |db.events| + i + 1
    ensures Valid(db.(events := db.events + es))
  {
    assert forall k :: |db.events| <= k < |db.events + es| ==> (db.events + es)[k] == es[k - |db.events|];
  }

  /** Appending outbox rows with the next ids keeps the tables valid. */
  lemma AddOutboxKeepsValid(db: Db, os: seq<OutboxItem>)
    requires Valid(db) && forall i :: 0 <= i < |os| ==> os[i].id == |db.outbox| + i + 1
    ensures Valid(db.(outbox := db.outbox + os))
  {
    assert forall k :: |db.outbox| <= k < |db.outbox + os| ==> (db.outbox + os)[k] == os[k - |db.outbox|];
  }

  /** Rewriting a ticket in place, keeping its id, keeps the tables valid. */
  lemma SetTicketKeepsValid(db: Db, k: int, t: Ticket)
    requires Valid(db) && 0 <= k < |db.tickets| && t.id == db.tickets[k].id
    ensures Valid(db.(tickets := db.tickets[k := t]))
  {
  }
}
