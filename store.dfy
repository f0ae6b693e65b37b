/**
 * The ORM session the endpoints work through: one field per table, changed in place row by row
 * as the Python code does, and proved to leave the tables exactly as the functional models of
 * the endpoints say.
 */
module Store {
  import opened Wrappers
  import opened Models
  import opened Transitions
  import opened Database
  import Notifs
  import Scheduler
  import Lifecycle
  import Claim

  /** SendAt over the first i+1 picked rows is SendAt over the first i, then one more send. */
  lemma SendAtStep(os: seq<OutboxItem>, sel: seq<nat>, i: nat, provider: string, now: int)
    requires i < |sel| && forall j :: 0 <= j < |sel| ==> sel[j] < |os|
    requires forall a, b :: 0 <= a < b < |sel| ==> sel[a] < sel[b]
    ensures var cur := Notifs.SendAt(os, sel[..i], provider, now);
      && cur[sel[i]] == os[sel[i]]
      && Notifs.SendAt(os, sel[..i + 1], provider, now) == cur[sel[i] := Notifs.SendItem(os[sel[i]], provider, now)]
      && Notifs.CountSent(os, sel[..i + 1], provider, now) ==
           Notifs.CountSent(os, sel[..i], provider, now) + if Notifs.SendItem(os[sel[i]], provider, now).state == Sent then 1 else 0
  {
    assert sel[i] !in sel[..i];
    assert sel[..i + 1][..i] == sel[..i];
    assert forall m :: m in sel[..i + 1] <==> m in sel[..i] || m == sel[i];
  }

  /** RetryAt over the first i+1 picked rows is RetryAt over the first i, then one more rewrite. */
  lemma RetryAtStep(os: seq<OutboxItem>, sel: seq<nat>, i: nat)
    requires i < |sel| && forall j :: 0 <= j < |sel| ==> sel[j] < |os|
    requires forall a, b :: 0 <= a < b < |sel| ==> sel[a] < sel[b]
    ensures var cur := Notifs.RetryAt(os, sel[..i]);
      && cur[sel[i]] == os[sel[i]]
      && Notifs.RetryAt(os, sel[..i + 1]) == cur[sel[i] := Notifs.RetryItem(os[sel[i]])]
  {
    assert sel[i] !in sel[..i];
    assert forall m :: m in sel[..i + 1] <==> m in sel[..i] || m == sel[i];
  }

  /** os is base followed by the created rows, the first j of them already sent. */
  predicate SentUpTo(os: seq<OutboxItem>, base: seq<OutboxItem>, created: seq<OutboxItem>, j: nat, provider: string, now: int) {
    && |os| == |base| + |created| && os[..|base|] == base
    && forall m :: 0 <= m < |created| ==>
         os[|base| + m] == if m < j then Notifs.SendItem(created[m], provider, now) else created[m]
  }

  lemma SentUpToStart(base: seq<OutboxItem>, created: seq<OutboxItem>, provider: string, now: int)
    ensures SentUpTo(base + created, base, created, 0, provider, now)
  {
    assert (base + created)[..|base|] == base;
  }

  /** Sending the row after the first j advances the prefix of sent rows by one. */
  lemma SentUpToStep(os: seq<OutboxItem>, base: seq<OutboxItem>, created: seq<OutboxItem>, j: nat, provider: string, now: int)
    requires SentUpTo(os, base, created, j, provider, now) && j < |created|
    ensures |base| + j < |os| && os[|base| + j] == created[j]
    ensures SentUpTo(os[|base| + j := Notifs.SendItem(os[|base| + j], provider, now)], base, created, j + 1, provider, now)
  {
    var os' := os[|base| + j := Notifs.SendItem(os[|base| + j], provider, now)];
    assert os'[..|base|] == os[..|base|];
    forall m | 0 <= m < |created|
      ensures os'[|base| + m] == if m < j + 1 then Notifs.SendItem(created[m], provider, now) else created[m]
    {
    }
  }

  lemma SentUpToEnd(os: seq<OutboxItem>, base: seq<OutboxItem>, created: seq<OutboxItem>, provider: string, now: int)
    requires SentUpTo(os, base, created, |created|, provider, now)
    ensures os == base + Notifs.SendAll(created, provider, now)
  {
    var want := base + Notifs.SendAll(created, provider, now);
    forall i | 0 <= i < |os| ensures os[i] == want[i] {
      if i < |base| {
        assert os[i] == os[..|base|][i];
      } else {
        assert os[|base| + (i - |base|)] == os[i];
      }
    }
  }

  lemma QueuedRowsAre(created: seq<OutboxItem>, active: seq<Subscription>, ticketId: int, requestId: Option<int>,
                      eventId: Option<int>, message: string, firstId: int, now: int)
    requires |created| == |active|
    requires forall j :: 0 <= j < |active| ==>
      created[j] == NewOutboxItem(firstId + j, ticketId, requestId, eventId, active[j].channel, active[j].target, message, now)
    ensures created == Notifs.QueueRows(active, ticketId, requestId, eventId, message, firstId, now)
  {
  }

  /** The database session: every table of the core, rewritten in place by the endpoints. */
  class Session {
    var venues: seq<Venue>
    var exits: seq<Exit>
    var zones: seq<Zone>
    var tickets: seq<Ticket>
    var requests: seq<Request>
    var events: seq<StatusEvent>
    var subs: seq<Subscription>
    var outbox: seq<OutboxItem>

    /** The committed tables as one value. */
    function Tables(): Db
      reads this
    {
      Db(venues, exits, zones, tickets, requests, events, subs, outbox)
    }

    constructor (db: Db)
      ensures Tables() == db
    {
      venues, exits, zones, tickets := db.venues, db.exits, db.zones, db.tickets;
      requests, events, subs, outbox := db.requests, db.events, db.subs, db.outbox;
    }

    /** send_outbox_item on the outbox row at position k: state, sent_at, provider_id and error set in place. */
    method SendOutboxItem(k: nat, provider: string, now: int)
      requires k < |outbox|
      modifies this
      ensures Tables() == old(Tables()).(outbox := old(outbox)[k := Notifs.SendItem(old(outbox)[k], provider, now)])
    {
      var item := outbox[k];
      if item.state != Pending {
        return;
      }
      if provider == "stub" {
        item := item.(state := Sent, sentAt := Some(now), providerId := Some("stub"));
      } else {
        item := item.(state := Failed, error := Some("Provider not implemented: " + provider));
      }
      outbox := outbox[k := item];
    }

    /**
     * queue_and_send: one PENDING row per active subscription of the ticket, then each new row,
     * looked up by its id, sent in turn. Returns the rows as they were queued.
     */
    method QueueAndSend(ticketId: int, requestId: Option<int>, eventId: Option<int>, message: string,
                        provider: string, now: int) returns (created: seq<OutboxItem>)
      modifies this
      ensures var q := Notifs.QueueAndSend(old(Tables()), ticketId, requestId, eventId, message, provider, now);
        Tables() == q.db && created == q.created
    {
      var active := Notifs.ActiveSubsOf(subs, ticketId);
      var n := |outbox|;
      created := QueueActive(active, ticketId, requestId, eventId, message, now);
      SendQueued(n, created, provider, now);
    }

    /** The first loop of queue_and_send: one PENDING row per active subscription, appended with the next free ids. */
    method QueueActive(active: seq<Subscription>, ticketId: int, requestId: Option<int>, eventId: Option<int>,
                       message: string, now: int) returns (created: seq<OutboxItem>)
      modifies this
      ensures created == Notifs.QueueRows(active, ticketId, requestId, eventId, message, |old(outbox)| + 1, now)
      ensures Tables() == old(Tables()).(outbox := old(outbox) + created)
    {
      var n := |outbox|;
      created := [];
      var i := 0;
      while i < |active|
        invariant 0 <= i <= |active|
        invariant Tables() == old(Tables()).(outbox := outbox)
        invariant |created| == i && outbox == old(outbox) + created
        invariant forall j :: 0 <= j < i ==>
          created[j] == NewOutboxItem(n + 1 + j, ticketId, requestId, eventId, active[j].channel, active[j].target, message, now)
      {
        var ob := NewOutboxItem(|outbox| + 1, ticketId, requestId, eventId, active[i].channel, active[i].target, message, now);
        outbox := outbox + [ob];
        created := created + [ob];
        i := i + 1;
      }
      QueuedRowsAre(created, active, ticketId, requestId, eventId, message, n + 1, now);
    }

    /** The second loop of queue_and_send: each row just queued, looked up by its id, is sent in turn. */
    method SendQueued(n: nat, created: seq<OutboxItem>, provider: string, now: int)
      requires |outbox| == n + |created| && outbox == outbox[..n] + created
      requires forall m :: 0 <= m < |created| ==> created[m].id == n + 1 + m
      modifies this
      ensures Tables() == old(Tables()).(outbox := old(outbox)[..n] + Notifs.SendAll(created, provider, now))
    {
      ghost var base := outbox[..n];
      var j := 0;
      SentUpToStart(base, created, provider, now);
      while j < |created|
        invariant 0 <= j <= |created|
        invariant Tables() == old(Tables()).(outbox := outbox)
        invariant SentUpTo(outbox, base, created, j, provider, now)
      {
        SentUpToStep(outbox, base, created, j, provider, now);
        SendOutboxItem(created[j].id - 1, provider, now);
        j := j + 1;
      }
      SentUpToEnd(outbox, base, created, provider, now);
    }

    /** run_drain: send the first `limit` rows in state st, in id order, counting those that end SENT. */
    method RunDrain(st: OutboxState, limit: nat, provider: string, now: int) returns (queued: nat, sent: nat)
      modifies this
      ensures var sel := Notifs.Pick(old(outbox), Notifs.InState(st), limit);
        && Tables() == old(Tables()).(outbox := Notifs.SendAt(old(outbox), sel, provider, now))
        && queued == |sel| && sent == Notifs.CountSent(old(outbox), sel, provider, now)
    {
      var items := Notifs.Pick(outbox, Notifs.InState(st), limit);
      sent := SendAll(items, provider, now);
      queued := |items|;
    }

    /** run_drain's loop: the picked rows are sent in order, counting those that end SENT. */
    method SendAll(items: seq<nat>, provider: string, now: int) returns (sent: nat)
      requires forall j :: 0 <= j < |items| ==> items[j] < |outbox|
      requires forall a, b :: 0 <= a < b < |items| ==> items[a] < items[b]
      modifies this
      ensures Tables() == old(Tables()).(outbox := Notifs.SendAt(old(outbox), items, provider, now))
      ensures sent == Notifs.CountSent(old(outbox), items, provider, now)
    {
      sent := 0;
      var i := 0;
      assert Notifs.SendAt(outbox, items[..0], provider, now) == outbox;
      while i < |items|
        invariant 0 <= i <= |items|
        invariant Tables() == old(Tables()).(outbox := outbox)
        invariant outbox == Notifs.SendAt(old(outbox), items[..i], provider, now)
        invariant sent == Notifs.CountSent(old(outbox), items[..i], provider, now)
      {
        var ok := SendPicked(old(Tables()), items, i, provider, now);
        if ok {
          sent := sent + 1;
        }
        i := i + 1;
      }
      assert items[..|items|] == items;
    }

    /** One turn of run_drain's loop: the i-th picked row is sent; reports whether it ended SENT. */
    method SendPicked(ghost base: Db, items: seq<nat>, i: nat, provider: string, now: int) returns (ok: bool)
      requires i < |items| && forall j :: 0 <= j < |items| ==> items[j] < |base.outbox|
      requires forall a, b :: 0 <= a < b < |items| ==> items[a] < items[b]
      requires Tables() == base.(outbox := Notifs.SendAt(base.outbox, items[..i], provider, now))
      modifies this
      ensures Tables() == base.(outbox := Notifs.SendAt(base.outbox, items[..i + 1], provider, now))
      ensures Notifs.CountSent(base.outbox, items[..i + 1], provider, now) ==
        Notifs.CountSent(base.outbox, items[..i], provider, now) + if ok then 1 else 0
    {
      SendAtStep(base.outbox, items, i, provider, now);
      SendOutboxItem(items[i], provider, now);
      ok := outbox[items[i]].state == Sent;
    }

    /** The drain endpoint: 400 for a state other than PENDING or FAILED, else run_drain's counts. */
    method Drain(state: Option<string>, limit: nat, provider: string, now: int) returns (resp: Response<Notifs.Drained>)
      modifies this
      ensures var r := Notifs.Drain(old(Tables()), state, limit, provider, now);
        Tables() == r.db && resp == r.resp
    {
      var st := Notifs.DrainState(state);
      if st.None? {
        return Fail(400, "state must be PENDING or FAILED");
      }
      var queued, sent := RunDrain(st.value, limit, provider, now);
      resp := Ok(Notifs.Drained(queued, sent));
    }

    /** retry: each picked FAILED row goes back to PENDING with one more retry and no error. */
    method Retry(limit: nat, olderThan: int, now: int) returns (resp: Response<nat>)
      modifies this
      ensures var r := Notifs.Retry(old(Tables()), limit, olderThan, now);
        Tables() == r.db && resp == r.resp
    {
      var items := Notifs.Pick(outbox, Notifs.FailedBy(now - olderThan), limit);
      var i := 0;
      assert Notifs.RetryAt(outbox, items[..0]) == outbox;
      while i < |items|
        invariant 0 <= i <= |items|
        invariant Tables() == old(Tables()).(outbox := Notifs.RetryAt(old(outbox), items[..i]))
      {
        RetryAtStep(old(outbox), items, i);
        var item := outbox[items[i]];
        item := item.(state := Pending, retryCount := item.retryCount + 1, error := None);
        outbox := outbox[items[i] := item];
        i := i + 1;
      }
      assert items[..|items|] == items;
      resp := Ok(|items|);
    }

    /**
     * run_scheduler_tick over the rows the due query returned: each row still SCHEDULED is
     * promoted in place, its event appended, the started message queued, and the count raised.
     */
    method RunSchedulerTick(due: seq<nat>, provider: string, now: int) returns (flipped: nat)
      requires Scheduler.InTable(requests, due)
      modifies this
      ensures var t := Scheduler.RunTick(old(Tables()), due, provider, now);
        Tables() == t.db && flipped == t.flipped
    {
      flipped := 0;
      var i := 0;
      while i < |due|
        invariant 0 <= i <= |due|
        invariant Scheduler.InTable(requests, due)
        invariant Scheduler.RunTick(Tables(), due[i..], provider, now).db == Scheduler.RunTick(old(Tables()), due, provider, now).db
        invariant flipped + Scheduler.RunTick(Tables(), due[i..], provider, now).flipped
          == Scheduler.RunTick(old(Tables()), due, provider, now).flipped
      {
        ghost var before := Tables();
        var f := FlipOne(due[i], provider, now);
        if f {
          flipped := flipped + 1;
        }
        assert due[i..][1..] == due[i + 1..];
        assert Scheduler.RunTick(before, due[i..], provider, now)
          == var t := Scheduler.FlipRow(before, due[i], provider, now);
             var rest := Scheduler.RunTick(t.db, due[i + 1..], provider, now);
             Scheduler.Tick(rest.db, rest.flipped + if t.flipped then 1 else 0);
        i := i + 1;
      }
    }

    /** One turn of run_scheduler_tick's loop on row k; reports whether the row was promoted. */
    method FlipOne(k: nat, provider: string, now: int) returns (f: bool)
      requires k < |requests|
      modifies this
      ensures var t := Scheduler.FlipRow(old(Tables()), k, provider, now);
        Tables() == t.db && f == t.flipped
    {
      ghost var before := Tables();
      var r := requests[k];
      f := r.status == Scheduled;
      if f {
        var previous := r.status;
        requests := requests[k := r.(status := Requested, updatedAt := now)];
        var ev := NewEvent(|events| + 1, r.ticketId, r.id, Some(previous), Requested, Some(Scheduler.AutoNote), now);
        events := events + [ev];
        assert Tables() == Lifecycle.RewriteRequest(before, k, Scheduler.Promoted(r, now), Some(Scheduler.AutoNote), now);
        var _ := QueueAndSend(r.ticketId, Some(r.id), Some(ev.id), Scheduler.StartedMessage, provider, now);
      }
    }

    /**
     * update_request_status: after its guards, the request takes the new status with an event;
     * PICKED_UP is then closed with a second event and the ticket's closed_at set if unset; READY
     * queues the "ready" message. Returns the request as it ends up.
     */
    method UpdateRequestStatus(user: User, reqId: int, status: Option<string>, provider: string, now: int)
      returns (resp: Response<Request>)
      requires Valid(Tables())
      modifies this
      ensures var r := Lifecycle.UpdateStatus(old(Tables()), user, reqId, status, provider, now);
        Tables() == r.db && resp == r.resp
    {
      var check := Lifecycle.StatusChangeCheck(Tables(), user, reqId, status);
      if check.Fail? {
        return Fail(check.code, check.message);
      }
      var k, t := check.value.0, check.value.1;
      if t == PickedUp {
        ClosePickedUp(k, now);
      } else {
        MoveStatus(k, t, provider, now);
      }
      resp := Ok(requests[k]);
    }

    /**
     * The PICKED_UP branch of update_request_status: the move, the auto-close and the ticket's
     * closed_at. It queues nothing, so no provider takes part.
     */
    method ClosePickedUp(k: nat, now: int)
      requires Valid(Tables()) && k < |requests| && PickedUp in Allowed(requests[k].status)
      modifies this
      ensures Tables() == Lifecycle.ChangeStatus(old(Tables()), k, PickedUp, "", now)
    {
      var r := requests[k];
      var previous := r.status;
      requests := requests[k := r.(status := PickedUp, updatedAt := now)];
      var e1 := NewEvent(|events| + 1, r.ticketId, r.id, Some(previous), PickedUp, None, now);
      events := events + [e1];
      requests := requests[k := r.(status := Closed, updatedAt := now)];
      var e2 := NewEvent(|events| + 1, r.ticketId, r.id, Some(PickedUp), Closed, Some(Lifecycle.AutoCloseNote), now);
      events := events + [e2];
      var tk := tickets[r.ticketId - 1];
      if tk.closedAt.None? {
        tickets := tickets[r.ticketId - 1 := tk.(closedAt := Some(now))];
      } else {
        assert tickets[r.ticketId - 1 := tk.(closedAt := Some(tk.closedAt.GetOr(now)))] == tickets;
      }
      assert events == old(events) + [e1, e2];
    }

    /** Every other allowed move of update_request_status: the new status with its event, and for READY the message. */
    method MoveStatus(k: nat, t: Status, provider: string, now: int)
      requires Valid(Tables()) && k < |requests| && t in Allowed(requests[k].status) && t != PickedUp
      modifies this
      ensures Tables() == Lifecycle.ChangeStatus(old(Tables()), k, t, provider, now)
    {
      var r := requests[k];
      var code := Lifecycle.ExitCodeOf(Tables(), r.exitId);
      var eventId := |events| + 1;
      RewriteRequest(k, r.(status := t, updatedAt := now), None, now);
      if t == Ready {
        var _ := QueueAndSend(r.ticketId, Some(r.id), Some(eventId), Notifs.RenderMessage("READY", code), provider, now);
      }
    }

    /** One request row rewritten in place under its own id, with the status event that records the move. */
    method RewriteRequest(k: nat, row: Request, note: Option<string>, now: int)
      requires k < |requests|
      modifies this
      ensures Tables() == Lifecycle.RewriteRequest(old(Tables()), k, row, note, now)
    {
      var rq := requests[k];
      var previous := rq.status;
      requests := requests[k := row];
      events := events + [NewEvent(|events| + 1, rq.ticketId, rq.id, Some(previous), row.status, note, now)];
    }

    /** reschedule: after its guards, the SCHEDULED request is due `minutes` from now, with a SCHEDULED -> SCHEDULED event. */
    method Reschedule(token: string, reqId: int, minutes: Option<int>, now: int) returns (resp: Response<Request>)
      requires Valid(Tables())
      modifies this
      ensures var r := Lifecycle.Reschedule(old(Tables()), token, reqId, minutes, now);
        Tables() == r.db && resp == r.resp
    {
      var check := Lifecycle.RescheduleCheck(Tables(), token, reqId, minutes, now);
      if check.Fail? {
        return Fail(check.code, check.message);
      }
      var k, mins := check.value.0, check.value.1;
      var row := requests[k].(scheduledFor := Some(now + 60 * mins), updatedAt := now);
      RewriteRequest(k, row, Some(Lifecycle.RescheduleNote(mins)), now);
      resp := Ok(row);
    }

    /** cancel_scheduled: after its guards, the SCHEDULED request becomes CANCELED with its event. */
    method CancelScheduled(token: string, reqId: int, now: int) returns (resp: Response<Request>)
      requires Valid(Tables())
      modifies this
      ensures var r := Lifecycle.CancelScheduled(old(Tables()), token, reqId, now);
        Tables() == r.db && resp == r.resp
    {
      var check := Lifecycle.CancelCheck(Tables(), token, reqId, now);
      if check.Fail? {
        return Fail(check.code, check.message);
      }
      var k := check.value;
      var row := requests[k].(status := Canceled, updatedAt := now);
      RewriteRequest(k, row, Some("Canceled by guest"), now);
      resp := Ok(row);
    }

    /** assign_request with the transition table enforced: the request becomes ASSIGNED to the assignee with its event. */
    method AssignRequest(user: User, reqId: int, assignedTo: Option<string>, now: int) returns (resp: Response<Request>)
      requires Valid(Tables())
      modifies this
      ensures var r := Lifecycle.Assign(old(Tables()), user, reqId, assignedTo, now);
        Tables() == r.db && resp == r.resp
    {
      var check := Lifecycle.AssignCheck(Tables(), user, reqId, assignedTo, true);
      if check.Fail? {
        return Fail(check.code, check.message);
      }
      var k := check.value;
      var who := Lifecycle.Assignee(user, assignedTo);
      var row := requests[k].(assignedTo := Some(who), assignedAt := Some(now), updatedAt := now, status := Assigned);
      RewriteRequest(k, row, Some("Assigned to " + who), now);
      resp := Ok(row);
    }

    /**
     * request_car: after its guards, the ticket's active request if it has one; otherwise a new
     * request, SCHEDULED with its message queued when due later, REQUESTED when due now. The
     * clock is read at `now` for the checks and again `elapsed` seconds later for the note.
     */
    method RequestCar(token: string, exitId: Option<int>, zoneId: Option<int>, when: Lifecycle.When,
                      provider: string, now: int, elapsed: nat) returns (resp: Response<Lifecycle.CarReply>)
      requires Valid(Tables())
      modifies this
      ensures var r := Lifecycle.RequestCar(old(Tables()), token, exitId, zoneId, when, provider, now, elapsed);
        Tables() == r.db && resp == r.resp
    {
      var check := Lifecycle.CarRequestCheck(Tables(), token, exitId, zoneId, when, now);
      if check.Fail? {
        return Fail(check.code, check.message);
      }
      var p := check.value;
      var latest := LatestOf(requests, tickets[p.ticket].id);
      if latest.Some? && IsActive(requests[latest.value].status) {
        return Ok(Lifecycle.CarReply(requests[latest.value], true));
      }
      var row := Lifecycle.PlannedRow(Tables(), p, now);
      CreateRequest(p, now, elapsed, provider);
      resp := Ok(Lifecycle.CarReply(row, false));
    }

    /** The new request of request_car with its creating event, and for a SCHEDULED one the message queued. */
    method CreateRequest(p: Lifecycle.Plan, now: int, elapsed: nat, provider: string)
      requires Valid(Tables()) && p.ticket < |tickets| && p.exit < |exits|
      modifies this
      ensures Tables() == Lifecycle.CreateRequest(old(Tables()), p, provider, now, elapsed)
    {
      if p.due.Some? {
        CreateScheduled(p, now, elapsed, provider);
      } else {
        Open(p, now, "Requested at exit " + exits[p.exit].code);
      }
    }

    /** The SCHEDULED case: the request, its creating event whose note gives the minutes, and the message queued. */
    method CreateScheduled(p: Lifecycle.Plan, now: int, elapsed: nat, provider: string)
      requires Valid(Tables()) && p.ticket < |tickets| && p.exit < |exits| && p.due.Some?
      modifies this
      ensures Tables() == Lifecycle.CreateRequest(old(Tables()), p, provider, now, elapsed)
    {
      var t := tickets[p.ticket];
      var x := exits[p.exit];
      var rid, eid := |requests| + 1, |events| + 1;
      var mins := Lifecycle.IntendedMinutes(p.due.value, now + elapsed);
      Open(p, now, Lifecycle.ScheduledNote(mins, x.code));
      var _ := QueueAndSend(t.id, Some(rid), Some(eid), Lifecycle.ScheduledMessage(mins, x.code), provider, now);
    }

    /** Adds the planned request and its creating event carrying `note`. */
    method Open(p: Lifecycle.Plan, now: int, note: string)
      requires Valid(Tables()) && p.ticket < |tickets| && p.exit < |exits|
      modifies this
      ensures Tables() == Lifecycle.Opened(old(Tables()), p, now, note)
    {
      var row := Lifecycle.PlannedRow(Tables(), p, now);
      var e := NewEvent(|events| + 1, tickets[p.ticket].id, row.id, None, row.status, Some(note), now);
      requests := requests + [row];
      events := events + [e];
    }

    /** The answer abort(429) gives a caller over the rate limit. */
    static const TooManyRequests: string := "Too Many Requests"

    /** claim_start: the rate limit first, then the venue and phone checks. It writes no table. */
    method ClaimStart(limiter: Claim.RateLimiter, remoteAddr: Option<string>, slug: string, phone: Option<string>, now: int)
      returns (resp: Response<()>)
      modifies limiter
      ensures var a := Claim.Admit(Claim.Listed(old(limiter.attempts), Claim.RateKey(remoteAddr)), now);
        && limiter.attempts == old(limiter.attempts)[Claim.RateKey(remoteAddr) := a.kept]
        && resp == if a.allowed then Claim.ClaimStart(Tables(), slug, phone) else Fail(429, TooManyRequests)
    {
      var allowed := limiter.Check(remoteAddr, now);
      if !allowed {
        return Fail(429, TooManyRequests);
      }
      resp := Claim.ClaimStart(Tables(), slug, phone);
    }

    /**
     * claim_confirm: the rate limit first, then the ladder; on success the ticket's claimed_phone
     * and claimed_at are set in place. A refused call writes no table.
     */
    method ClaimConfirm(limiter: Claim.RateLimiter, remoteAddr: Option<string>, slug: string,
                        phone: Option<string>, code: Option<string>, now: int) returns (resp: Response<Claim.Claimed>)
      modifies this, limiter
      ensures var a := Claim.Admit(Claim.Listed(old(limiter.attempts), Claim.RateKey(remoteAddr)), now);
        && limiter.attempts == old(limiter.attempts)[Claim.RateKey(remoteAddr) := a.kept]
        && (!a.allowed ==> Tables() == old(Tables()) && resp == Fail(429, TooManyRequests))
        && (a.allowed ==> var r := Claim.Confirm(old(Tables()), slug, phone, code, now); Tables() == r.db && resp == r.resp)
    {
      var allowed := limiter.Check(remoteAddr, now);
      if !allowed {
        return Fail(429, TooManyRequests);
      }
      resp := BindClaim(slug, phone, code, now);
    }

    /** claim_confirm past the rate limit: the ladder, then the phone and time written to the ticket. */
    method BindClaim(slug: string, phone: Option<string>, code: Option<string>, now: int) returns (resp: Response<Claim.Claimed>)
      modifies this
      ensures var r := Claim.Confirm(old(Tables()), slug, phone, code, now);
        Tables() == r.db && resp == r.resp
    {
      var check := Claim.ConfirmCheck(Tables(), slug, phone, code, now);
      if check.Fail? {
        return Fail(check.code, check.message);
      }
      var k := check.value;
      var tk := tickets[k];
      tickets := tickets[k := tickets[k].(claimedPhone := Some(Claim.Field(phone)))];
      tickets := tickets[k := tickets[k].(claimedAt := Some(now))];
      assert tickets == old(tickets)[k := tk.(claimedPhone := Some(Claim.Field(phone)), claimedAt := Some(now))];
      resp := Ok(Claim.Claimed(tk.token, "/t/" + tk.token, Claim.MaskedVehicle(tk.carNumber)));
    }
  }
}
