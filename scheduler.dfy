/**
 * run_scheduler_tick (backend/app/routes/scheduler.py): SCHEDULED requests whose time has come
 * are promoted to REQUESTED, each with one audit event and the "scheduled request started"
 * message queued to the ticket's subscribers.
 *
 * The due query itself runs in the database; the tick receives its result as a list of table
 * positions, and DueSelection states what the query guarantees about that list.
 */
module Scheduler {
  import opened Wrappers
  import opened Models
  import opened Transitions
  import opened Database
  import opened Notifs
  import opened Lifecycle

  /** The LIMIT of the due query. */
  const TickLimit: nat := 100

  const AutoNote: string := "Auto-triggered from schedule"

  const StartedMessage: string := "CurbKey: Scheduled request started. We'll notify you when ready."

  /** The filter of the due query: status SCHEDULED and a scheduled_for that is not NULL and not after now. */
  predicate IsDue(r: Request, now: int) {
    r.status == Scheduled && r.scheduledFor.Some? && r.scheduledFor.value <= now
  }

  predicate InTable(rs: seq<Request>, due: seq<nat>) {
    forall j :: 0 <= j < |due| ==> due[j] < |rs|
  }

  predicate Distinct(due: seq<nat>) {
    forall i, j :: 0 <= i < j < |due| ==> due[i] != due[j]
  }

  predicate AllScheduled(rs: seq<Request>, due: seq<nat>)
    requires InTable(rs, due)
  {
    forall j :: 0 <= j < |due| ==> rs[due[j]].status == Scheduled
  }

  /**
   * What the due query may return: distinct due rows in ascending scheduled_for, at most 100 of
   * them, and a due row is left out only when 100 rows scheduled no later than it were taken.
   * Rows with equal scheduled_for may come in any order.
   */
  predicate DueSelection(rs: seq<Request>, now: int, due: seq<nat>) {
    && |due| <= TickLimit
    && InTable(rs, due)
    && Distinct(due)
    && (forall j :: 0 <= j < |due| ==> IsDue(rs[due[j]], now))
    && (forall i, j :: 0 <= i < j < |due| ==> rs[due[i]].scheduledFor.value <= rs[due[j]].scheduledFor.value)
    && (forall k :: 0 <= k < |rs| && IsDue(rs[k], now) && k !in due ==>
          |due| == TickLimit && forall j :: 0 <= j < |due| ==> rs[due[j]].scheduledFor.value <= rs[k].scheduledFor.value)
  }

  /** A request as the tick leaves it: REQUESTED, updated now, every other column kept. */
  function Promoted(r: Request, now: int): Request {
    r.(status := Requested, updatedAt := now)
  }

  /** rs' is rs with exactly the rows at the positions in due promoted. */
  predicate PromotedAt(rs: seq<Request>, rs': seq<Request>, due: seq<nat>, now: int) {
    |rs'| == |rs| && forall k :: 0 <= k < |rs| ==> rs'[k] == if k in due then Promoted(rs[k], now) else rs[k]
  }

  /** The events the tick logs for the rows in due, in loop order, numbered from n + 1. */
  function TickEvents(rs: seq<Request>, due: seq<nat>, n: int, now: int): seq<StatusEvent>
    requires InTable(rs, due)
    decreases |due|
  {
    if due == [] then []
    else
      var e := NewEvent(n + 1, rs[due[0]].ticketId, rs[due[0]].id, Some(Scheduled), Requested, Some(AutoNote), now);
      [e] + TickEvents(rs, due[1..], n + 1, now)
  }

  /** The i-th logged event carries id n + i + 1 and names the i-th row of due, moving it SCHEDULED -> REQUESTED. */
  lemma {:induction false} TickEventsShape(rs: seq<Request>, due: seq<nat>, n: int, now: int)
    requires InTable(rs, due)
    ensures var es := TickEvents(rs, due, n, now);
      && |es| == |due|
      && forall i :: 0 <= i < |due| ==>
           es[i] == NewEvent(n + i + 1, rs[due[i]].ticketId, rs[due[i]].id, Some(Scheduled), Requested, Some(AutoNote), now)
    decreases |due|
  {
    if due != [] {
      TickEventsShape(rs, due[1..], n + 1, now);
    }
  }

  /** The logged events depend only on the rows named in due. */
  lemma {:induction false} TickEventsFrame(rs: seq<Request>, rs': seq<Request>, due: seq<nat>, n: int, now: int)
    requires InTable(rs, due) && InTable(rs', due)
    requires forall j :: 0 <= j < |due| ==> rs'[due[j]] == rs[due[j]]
    ensures TickEvents(rs', due, n, now) == TickEvents(rs, due, n, now)
    decreases |due|
  {
    if due != [] {
      TickEventsFrame(rs, rs', due[1..], n + 1, now);
    }
  }

  /** The tables after one turn of the loop, and whether the row counted as flipped. */
  datatype Turn = Turn(db: Db, flipped: bool)

  /**
   * One turn of the loop over the due rows: a row no longer SCHEDULED is skipped; otherwise it
   * is promoted, its event SCHEDULED -> REQUESTED is logged, and the message is queued for it.
   */
  function FlipRow(db: Db, k: nat, provider: string, now: int): (r: Turn)
    requires k < |db.requests|
    ensures |r.db.requests| == |db.requests|
  {
    var rq := db.requests[k];
    if rq.status != Scheduled then Turn(db, false)
    else
      var d := RewriteRequest(db, k, Promoted(rq, now), Some(AutoNote), now);
      Turn(QueueAndSend(d, rq.ticketId, Some(rq.id), Some(|db.events| + 1), StartedMessage, provider, now).db, true)
  }

  /** The tables after the tick and the count it returns. */
  datatype Tick = Tick(db: Db, flipped: nat)

  /** run_scheduler_tick over the rows the due query returned, in the order it returned them. */
  function RunTick(db: Db, due: seq<nat>, provider: string, now: int): (r: Tick)
    requires InTable(db.requests, due)
    ensures |r.db.requests| == |db.requests|
    decreases |due|
  {
    if due == [] then Tick(db, 0)
    else
      var t := FlipRow(db, due[0], provider, now);
      var rest := RunTick(t.db, due[1..], provider, now);
      Tick(rest.db, rest.flipped + if t.flipped then 1 else 0)
  }

  /**
   * Promoting a SCHEDULED row keeps the tables valid, rewrites only that row, logs exactly one
   * event SCHEDULED -> REQUESTED with the next id and the automatic note, and only appends to
   * the outbox, every new row carrying the started message.
   */
  lemma FlipRowEffect(db: Db, k: nat, provider: string, now: int)
    requires Valid(db) && k < |db.requests| && db.requests[k].status == Scheduled
    ensures var t := FlipRow(db, k, provider, now);
      var rq := db.requests[k];
      && t.flipped
      && Valid(t.db)
      && t.db == db.(requests := t.db.requests, events := t.db.events, outbox := t.db.outbox)
      && t.db.requests == db.requests[k := Promoted(rq, now)]
      && t.db.events == db.events + [NewEvent(|db.events| + 1, rq.ticketId, rq.id, Some(Scheduled), Requested, Some(AutoNote), now)]
      && |db.outbox| <= |t.db.outbox| && t.db.outbox[..|db.outbox|] == db.outbox
      && forall i :: |db.outbox| <= i < |t.db.outbox| ==> t.db.outbox[i].message == StartedMessage
  {
    var rq := db.requests[k];
    var d := RewriteRequest(db, k, Promoted(rq, now), Some(AutoNote), now);
    RewriteRequestEffect(db, k, Promoted(rq, now), Some(AutoNote), now);
    QueueAndSendAppends(d, rq.ticketId, Some(rq.id), Some(|db.events| + 1), StartedMessage, provider, now);
    var q := QueueAndSend(d, rq.ticketId, Some(rq.id), Some(|db.events| + 1), StartedMessage, provider, now);
    forall i | |db.outbox| <= i < |q.db.outbox| ensures q.db.outbox[i].message == StartedMessage {
      QueueAndSendRow(d, rq.ticketId, Some(rq.id), Some(|db.events| + 1), StartedMessage, provider, now, i - |db.outbox|);
    }
    assert d.events == db.events + [NewEvent(|db.events| + 1, rq.ticketId, rq.id, Some(Scheduled), Requested, Some(AutoNote), now)];
  }

  /** The requests and the log after promoting a SCHEDULED row, whatever the other tables hold. */
  lemma FlipRowLog(db: Db, k: nat, provider: string, now: int)
    requires k < |db.requests| && db.requests[k].status == Scheduled
    ensures var t := FlipRow(db, k, provider, now);
      var rq := db.requests[k];
      && t.db.requests == db.requests[k := Promoted(rq, now)]
      && t.db.events == db.events + [NewEvent(|db.events| + 1, rq.ticketId, rq.id, Some(Scheduled), Requested, Some(AutoNote), now)]
  {
  }

  /** A row the loop reaches when it is no longer SCHEDULED is skipped: nothing changes and it is not counted. */
  lemma FlipRowSkips(db: Db, k: nat, provider: string, now: int)
    requires k < |db.requests| && db.requests[k].status != Scheduled
    ensures FlipRow(db, k, provider, now) == Turn(db, false)
  {
  }

  /** After the first row is promoted, the remaining rows are still distinct, SCHEDULED and as they were. */
  lemma RestAfterFirst(rs: seq<Request>, rs': seq<Request>, due: seq<nat>, now: int)
    requires InTable(rs, due) && Distinct(due) && AllScheduled(rs, due) && due != []
    requires rs' == rs[due[0] := Promoted(rs[due[0]], now)]
    ensures InTable(rs', due[1..]) && Distinct(due[1..]) && AllScheduled(rs', due[1..])
    ensures forall j :: 0 <= j < |due| - 1 ==> due[1..][j] == due[j + 1] && rs'[due[1..][j]] == rs[due[1..][j]]
    ensures forall m :: m in due <==> m == due[0] || m in due[1..]
  {
    assert forall j :: 0 <= j < |due| - 1 ==> due[1..][j] == due[j + 1] && due[1..][j] != due[0];
  }

  /**
   * Over distinct SCHEDULED rows the tick flips every one of them, keeps the tables valid and
   * rewrites exactly those rows, leaving every table but requests, events and outbox as it was.
   */
  lemma {:induction false} RunTickRows(db: Db, due: seq<nat>, provider: string, now: int)
    requires Valid(db) && InTable(db.requests, due) && Distinct(due) && AllScheduled(db.requests, due)
    ensures var t := RunTick(db, due, provider, now);
      && Valid(t.db)
      && t.flipped == |due|
      && t.db == db.(requests := t.db.requests, events := t.db.events, outbox := t.db.outbox)
      && PromotedAt(db.requests, t.db.requests, due, now)
    decreases |due|
  {
    if due != [] {
      var k := due[0];
      var rest := due[1..];
      var f := FlipRow(db, k, provider, now);
      FlipRowEffect(db, k, provider, now);
      RestAfterFirst(db.requests, f.db.requests, due, now);
      RunTickRows(f.db, rest, provider, now);
    }
  }

  /** Over distinct SCHEDULED rows the tick keeps the log it found and appends exactly TickEvents to it. */
  lemma {:induction false} RunTickEvents(db: Db, due: seq<nat>, provider: string, now: int)
    requires InTable(db.requests, due) && Distinct(due) && AllScheduled(db.requests, due)
    ensures RunTick(db, due, provider, now).db.events == db.events + TickEvents(db.requests, due, |db.events|, now)
    decreases |due|
  {
    if due != [] {
      var k := due[0];
      var rest := due[1..];
      var f := FlipRow(db, k, provider, now);
      FlipRowLog(db, k, provider, now);
      RestAfterFirst(db.requests, f.db.requests, due, now);
      RunTickEvents(f.db, rest, provider, now);
      TickEventsFrame(db.requests, f.db.requests, rest, |db.events| + 1, now);
      var e := NewEvent(|db.events| + 1, db.requests[k].ticketId, db.requests[k].id, Some(Scheduled), Requested, Some(AutoNote), now);
      var tail := TickEvents(db.requests, rest, |db.events| + 1, now);
      assert (db.events + [e]) + tail == db.events + ([e] + tail);
    }
  }

  /** The query's guarantees make the rows distinct and SCHEDULED, so the tick flips every row it was given. */
  lemma SelectionFlipsAll(rs: seq<Request>, now: int, due: seq<nat>)
    requires DueSelection(rs, now, due)
    ensures InTable(rs, due) && Distinct(due) && AllScheduled(rs, due)
  {
  }

  /**
   * The returned count is the number of rows flipped and at most 100; exactly the selected rows,
   * all of them due, become REQUESTED; a row that is not due, or not SCHEDULED, is left unchanged.
   */
  lemma TickFlipsOnlyDue(db: Db, due: seq<nat>, provider: string, now: int)
    requires Valid(db) && DueSelection(db.requests, now, due)
    ensures var t := RunTick(db, due, provider, now);
      && Valid(t.db)
      && t.flipped == |due| <= TickLimit
      && (forall k :: 0 <= k < |db.requests| && !IsDue(db.requests[k], now) ==> t.db.requests[k] == db.requests[k])
      && (forall k :: 0 <= k < |db.requests| && k in due ==>
            IsDue(db.requests[k], now) && t.db.requests[k] == Promoted(db.requests[k], now))
  {
    SelectionFlipsAll(db.requests, now, due);
    RunTickRows(db, due, provider, now);
    forall k | 0 <= k < |db.requests| && k in due
      ensures IsDue(db.requests[k], now)
    {
      var j :| 0 <= j < |due| && due[j] == k;
    }
  }

  /**
   * Each row of the tick gets exactly one event: the i-th event names the request with id
   * due[i] + 1, so distinct rows give events for distinct requests.
   */
  lemma TickEventsOnePerRow(rs: seq<Request>, due: seq<nat>, n: int, now: int)
    requires RequestIds(rs) && InTable(rs, due) && Distinct(due)
    ensures var es := TickEvents(rs, due, n, now);
      && |es| == |due|
      && (forall i :: 0 <= i < |es| ==> es[i].requestId == due[i] + 1 && es[i].id == n + i + 1)
      && (forall i, j :: 0 <= i < j < |es| ==> es[i].requestId != es[j].requestId)
  {
    TickEventsShape(rs, due, n, now);
  }

  /** Rows promoted at now are REQUESTED, the rest unchanged, so after a tick that took every due row none is due at a later time unless newly due. */
  lemma NoneLeftDue(rs: seq<Request>, rs': seq<Request>, due: seq<nat>, now: int, later: int)
    requires DueSelection(rs, now, due) && |due| < TickLimit
    requires NothingNewlyDue(rs, now, later) && PromotedAt(rs, rs', due, now)
    ensures forall k :: 0 <= k < |rs'| ==> !IsDue(rs'[k], later)
  {
  }

  lemma FirstSelectedIsDue(rs: seq<Request>, now: int, due: seq<nat>)
    requires DueSelection(rs, now, due) && due != []
    ensures due[0] < |rs| && IsDue(rs[due[0]], now)
  {
  }

  /** With no row due, the due query returns nothing. */
  lemma EmptyWhenNoneDue(rs: seq<Request>, now: int, due: seq<nat>)
    requires forall k :: 0 <= k < |rs| ==> !IsDue(rs[k], now)
    requires DueSelection(rs, now, due)
    ensures due == []
  {
    if due != [] {
      FirstSelectedIsDue(rs, now, due);
      assert false;
    }
  }

  /** Promoting SCHEDULED rows keeps the per-ticket rule: both statuses are active and tickets do not move. */
  lemma PromoteKeepsRules(rs: seq<Request>, rs': seq<Request>, due: seq<nat>, now: int)
    requires OnlyLatestActive(rs) && NoneAtPickedUp(rs)
    requires InTable(rs, due) && AllScheduled(rs, due) && PromotedAt(rs, rs', due, now)
    ensures OnlyLatestActive(rs') && NoneAtPickedUp(rs')
  {
    assert forall k :: 0 <= k < |rs| ==>
      rs'[k].ticketId == rs[k].ticketId && IsActive(rs'[k].status) == IsActive(rs[k].status) && rs'[k].status != PickedUp;
  }

  /** No SCHEDULED row has its time fall in (now, later]: nothing new becomes due between two ticks. */
  predicate NothingNewlyDue(rs: seq<Request>, now: int, later: int) {
    forall k :: 0 <= k < |rs| && IsDue(rs[k], later) ==> IsDue(rs[k], now)
  }

  /**
   * A tick that took every due row leaves none behind: a later tick with nothing newly due is
   * handed an empty list, flips 0 and changes nothing.
   */
  lemma SecondTickFlipsNothing(db: Db, due: seq<nat>, provider: string, now: int,
                               later: int, due2: seq<nat>)
    requires Valid(db) && DueSelection(db.requests, now, due) && |due| < TickLimit
    requires NothingNewlyDue(db.requests, now, later)
    requires DueSelection(RunTick(db, due, provider, now).db.requests, later, due2)
    ensures due2 == []
    ensures var t := RunTick(db, due, provider, now);
      RunTick(t.db, due2, provider, later) == Tick(t.db, 0)
  {
    SelectionFlipsAll(db.requests, now, due);
    RunTickRows(db, due, provider, now);
    var t := RunTick(db, due, provider, now);
    NoneLeftDue(db.requests, t.db.requests, due, now, later);
    EmptyWhenNoneDue(t.db.requests, later, due2);
  }

  /**
   * The tick keeps the per-ticket rule: SCHEDULED and REQUESTED are both active, so promoting
   * a row changes neither which requests are active nor which ticket they belong to.
   */
  lemma TickKeepsCoherent(db: Db, due: seq<nat>, provider: string, now: int)
    requires Coherent(db) && DueSelection(db.requests, now, due)
    ensures Coherent(RunTick(db, due, provider, now).db)
  {
    SelectionFlipsAll(db.requests, now, due);
    RunTickRows(db, due, provider, now);
    PromoteKeepsRules(db.requests, RunTick(db, due, provider, now).db.requests, due, now);
  }

  /** The guard makes a repeated row harmless: reached a second time it is skipped, so it flips once. */
  lemma RepeatedRowFlipsOnce(db: Db, k: nat, provider: string, now: int)
    requires Valid(db) && k < |db.requests| && db.requests[k].status == Scheduled
    ensures RunTick(db, [k, k], provider, now) == RunTick(db, [k], provider, now).(flipped := 1)
  {
    FlipRowEffect(db, k, provider, now);
    var f := FlipRow(db, k, provider, now);
    assert [k, k][1..] == [k];
    assert RunTick(f.db, [k], provider, now) == Tick(f.db, 0);
  }
}
