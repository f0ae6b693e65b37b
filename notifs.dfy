/**
 * The notification outbox of backend/app/routes/notifs.py and backend/app/services/notifier.py:
 * the message texts, one PENDING row per active subscription, the per-row PENDING -> SENT/FAILED
 * machine, subscriptions, and the drain and retry batches.
 */
module Notifs {
  import opened Wrappers
  import opened Text
  import opened Models
  import opened Database

  /** Every message starts with the brand. */
  const Brand: string := "CurbKey: "

  /** _render_message: the short SMS-style text for a status change. */
  function RenderMessage(toStatus: string, exitCode: Option<string>): (r: string)
    ensures |r| > |Brand| && r[..|Brand|] == Brand
  {
    Brand + RenderBody(toStatus, exitCode)
  }

  /** exit_code or '?'. */
  function ShownCode(exitCode: Option<string>): (r: string)
    ensures r != []
  {
    if exitCode.Some? && exitCode.value != [] then exitCode.value else "?"
  }

  /** The text after the brand. */
  function RenderBody(toStatus: string, exitCode: Option<string>): (r: string)
    ensures r != []
  {
    if toStatus == "READY" then
      "Your car is " + ("ready at Exit " + (ShownCode(exitCode) + "."))
    else if toStatus == "RETRIEVING" then "Your car is " + "being retrieved."
    else if toStatus == "REQUESTED" then "Request received. " + "We\U{2019}ll notify you when " + "your car is ready."
    else if toStatus == "CLOSED" then "Pickup complete. Thanks!"
    else "Status update \U{2192} " + toStatus
  }

  /** The READY text names the exit code it was given, or '?' when there is none. */
  lemma ReadyMessageNamesExit(code: Option<string>)
    ensures Contains(RenderMessage("READY", code), ShownCode(code))
  {
    var c := ShownCode(code);
    PrefixContained(c, ".");
    SuffixContains("ready at Exit ", c + ".", c);
    SuffixContains("Your car is ", "ready at Exit " + (c + "."), c);
    SuffixContains(Brand, RenderBody("READY", code), c);
  }

  /** A pattern found in a suffix is found in the whole string. */
  lemma {:induction false} SuffixContains(pre: string, s: string, pat: string)
    requires Contains(s, pat)
    ensures Contains(pre + s, pat)
    decreases |pre|
  {
    if pre != [] {
      assert (pre + s)[1..] == pre[1..] + s;
      SuffixContains(pre[1..], s, pat);
      assert Contains((pre + s)[1..], pat);
    } else {
      assert pre + s == s;
    }
  }

  /** Different statuses never render to the same text, whatever the exit codes. */
  lemma RenderMessageInjective(s1: string, c1: Option<string>, s2: string, c2: Option<string>)
    requires RenderMessage(s1, c1) == RenderMessage(s2, c2)
    ensures s1 == s2
  {
    var b1 := RenderBody(s1, c1);
    var b2 := RenderBody(s2, c2);
    assert b1 == RenderMessage(s1, c1)[|Brand|..] == b2;
    var up := "Status update \U{2192} ";
    var fixed := ["READY", "RETRIEVING", "REQUESTED", "CLOSED"];
    if s1 !in fixed && s2 !in fixed {
      assert b1 == up + s1 && b2 == up + s2;
      assert s1 == b1[|up|..] == s2;
    } else {
      // the first character of the body tells the four fixed texts and the fallback apart,
      // and the thirteenth tells READY from RETRIEVING
      BodyTag(s1, c1);
      BodyTag(s2, c2);
    }
  }

  /** The characters of a message body that identify its status. */
  lemma BodyTag(s: string, c: Option<string>)
    ensures var b := RenderBody(s, c);
      && (b[0] == 'Y' <==> s == "READY" || s == "RETRIEVING")
      && (b[0] == 'R' <==> s == "REQUESTED")
      && (b[0] == 'P' <==> s == "CLOSED")
      && (b[0] == 'Y' ==> |b| > 12 && (b[12] == 'r' <==> s == "READY"))
  {
    var your := "Your car is ";
    if s == "READY" {
      var t := "ready at Exit " + (ShownCode(c) + ".");
      assert RenderBody(s, c) == your + t && t[0] == 'r';
    } else if s == "RETRIEVING" {
      assert RenderBody(s, c) == your + "being retrieved.";
    } else if s == "REQUESTED" {
      assert RenderBody(s, c)[0] == 'R';
    } else if s == "CLOSED" {
      assert RenderBody(s, c)[0] == 'P';
    } else {
      var up := "Status update \U{2192} ";
      assert RenderBody(s, c) == up + s && up[0] == 'S';
    }
  }

  /** The channels a subscription may name. */
  const Channels: set<string> := {"STUB", "EMAIL", "SMS", "WHATSAPP"}

  /** NOTIF_PROVIDER: the environment value, "stub" when unset, lower-cased. */
  function ProviderName(env: Option<string>): string {
    Lower(env.GetOr("stub"))
  }

  /** send_outbox_item: a PENDING row becomes SENT through the stub provider and FAILED through any other. */
  function SendItem(item: OutboxItem, provider: string, now: int): (r: OutboxItem)
    ensures item.state != Pending ==> r == item
    ensures item.state == Pending && provider == "stub" ==>
      r == item.(state := Sent, sentAt := Some(now), providerId := Some("stub"))
    ensures item.state == Pending && provider != "stub" ==>
      r == item.(state := Failed, error := Some("Provider not implemented: " + provider))
  {
    if item.state != Pending then item
    else if provider == "stub" then item.(state := Sent, sentAt := Some(now), providerId := Some("stub"))
    else item.(state := Failed, error := Some("Provider not implemented: " + provider))
  }

  /** After one send a row is never PENDING, and sending it again changes nothing. */
  lemma SendSettles(item: OutboxItem, provider: string, now: int, later: int)
    ensures SendItem(item, provider, now).state != Pending
    ensures SendItem(SendItem(item, provider, now), provider, later) == SendItem(item, provider, now)
    ensures SendItem(item, provider, now).id == item.id && SendItem(item, provider, now).message == item.message
  {
  }

  /** NotificationSubscription.query.filter_by(ticket_id=ticketId, is_active=True), in id order. */
  function ActiveSubsOf(subs: seq<Subscription>, ticketId: int): (r: seq<Subscription>)
    ensures |r| <= |subs|
  {
    if subs == [] then []
    else (if subs[0].ticketId == ticketId && subs[0].isActive then [subs[0]] else []) + ActiveSubsOf(subs[1..], ticketId)
  }

  /** The query returns exactly the active subscriptions of the ticket. */
  lemma {:induction false} ActiveSubsOfMembers(subs: seq<Subscription>, ticketId: int)
    ensures forall s :: s in ActiveSubsOf(subs, ticketId) <==> s in subs && s.ticketId == ticketId && s.isActive
  {
    if subs != [] {
      ActiveSubsOfMembers(subs[1..], ticketId);
      assert subs == [subs[0]] + subs[1..];
    }
  }

  /** The PENDING rows the first loop of queue_and_send adds, one per subscription, with consecutive ids. */
  function QueueRows(active: seq<Subscription>, ticketId: int, requestId: Option<int>, eventId: Option<int>,
                     message: string, firstId: int, now: int): (r: seq<OutboxItem>)
    ensures |r| == |active|
  {
    seq(|active|, k requires 0 <= k < |active| =>
      NewOutboxItem(firstId + k, ticketId, requestId, eventId, active[k].channel, active[k].target, message, now))
  }

  /** The same rows after the second loop of queue_and_send has sent each of them. */
  function SendAll(rows: seq<OutboxItem>, provider: string, now: int): (r: seq<OutboxItem>)
    ensures |r| == |rows|
  {
    seq(|rows|, k requires 0 <= k < |rows| => SendItem(rows[k], provider, now))
  }

  datatype Queued = Queued(db: Db, created: seq<OutboxItem>)

  /** queue_and_send: the tables afterwards, and the created rows as returned (snapshots taken while PENDING). */
  function QueueAndSend(db: Db, ticketId: int, requestId: Option<int>, eventId: Option<int>,
                        message: string, provider: string, now: int): (r: Queued)
  {
    var rows := QueueRows(ActiveSubsOf(db.subs, ticketId), ticketId, requestId, eventId, message, |db.outbox| + 1, now);
    Queued(db.(outbox := db.outbox + SendAll(rows, provider, now)), rows)
  }

  /**
   * queue_and_send only appends to the outbox, one row per active subscription of the ticket,
   * with the next free ids, and leaves every other table and every older row as it was.
   */
  lemma QueueAndSendAppends(db: Db, ticketId: int, requestId: Option<int>, eventId: Option<int>,
                            message: string, provider: string, now: int)
    requires Valid(db)
    ensures var q := QueueAndSend(db, ticketId, requestId, eventId, message, provider, now);
      && Valid(q.db)
      && q.db == db.(outbox := q.db.outbox)
      && |q.db.outbox| == |db.outbox| + |ActiveSubsOf(db.subs, ticketId)| == |db.outbox| + |q.created|
      && q.db.outbox[..|db.outbox|] == db.outbox
  {
    var rows := QueueRows(ActiveSubsOf(db.subs, ticketId), ticketId, requestId, eventId, message, |db.outbox| + 1, now);
    var sent := SendAll(rows, provider, now);
    var n := |db.outbox|;
    assert forall i :: 0 <= i < |sent| ==> sent[i].id == rows[i].id == n + i + 1;
    AddOutboxKeepsValid(db, sent);
    assert (db.outbox + sent)[..n] == db.outbox;
  }

  /**
   * The k-th new row copies the k-th active subscription's channel and target and carries the
   * message; it is SENT through the stub provider and FAILED otherwise, never left PENDING, while
   * the snapshot queue_and_send returns for it says PENDING.
   */
  lemma QueueAndSendRow(db: Db, ticketId: int, requestId: Option<int>, eventId: Option<int>,
                        message: string, provider: string, now: int, k: int)
    requires 0 <= k < |ActiveSubsOf(db.subs, ticketId)|
    ensures var q := QueueAndSend(db, ticketId, requestId, eventId, message, provider, now);
      var s := ActiveSubsOf(db.subs, ticketId)[k];
      var o := q.db.outbox[|db.outbox| + k];
      && s in db.subs && s.ticketId == ticketId && s.isActive
      && o.ticketId == ticketId && o.channel == s.channel && o.target == s.target
      && o.message == message && o.requestId == requestId && o.statusEventId == eventId
      && (o.state == Sent <==> provider == "stub") && o.state != Pending
      && q.created[k].id == o.id && q.created[k].state == Pending
  {
    var q := QueueAndSend(db, ticketId, requestId, eventId, message, provider, now);
    ActiveSubsOfMembers(db.subs, ticketId);
    assert q.db.outbox[|db.outbox| + k] == SendItem(q.created[k], provider, now);
  }

  /**
   * The channel and stored target of subscribe: the channel upper-cased (STUB, already upper case, when absent), the
   * target stripped, "stub" standing in for a missing STUB target.
   */
  function SubscribeFields(channel: Option<string>, target: Option<string>): (r: Response<(string, string)>)
    ensures r.Ok? ==> r.value.0 in Channels && r.value.1 != []
    ensures r.Fail? ==> r.code == 400
  {
    var ch := if channel.Some? && channel.value != [] then Upper(channel.value) else "STUB";
    var tg := Strip(target.GetOr(""));
    if ch !in Channels then Fail(400, "invalid channel")
    else if ch != "STUB" && tg == [] then Fail(400, "target required for EMAIL/SMS/WHATSAPP")
    else Ok((ch, if tg == [] then "stub" else tg))
  }

  /** subscribe: the new subscription's id, or the 404/400 the endpoint aborts with. */
  function Subscribe(db: Db, token: string, channel: Option<string>, target: Option<string>,
                     active: bool, now: int): (r: Step<int>)
    requires Valid(db)
    ensures r.resp.Fail? ==> r.db == db
    ensures r.resp.Ok? ==> (Valid(r.db) && r.db == db.(subs := r.db.subs) && |r.db.subs| == |db.subs| + 1
      && r.db.subs[..|db.subs|] == db.subs && r.resp.value == |r.db.subs|)
  {
    match TicketWithToken(db.tickets, token)
    case None => Step(db, Fail(404, "ticket not found"))
    case Some(ti) =>
      match SubscribeFields(channel, target)
      case Fail(code, msg) => Step(db, Fail(code, msg))
      case Ok(fields) =>
        var sub := Subscription(|db.subs| + 1, db.tickets[ti].id, fields.0, fields.1, active, now);
        AppendSubKeepsValid(db, sub);
        Step(db.(subs := db.subs + [sub]), Ok(sub.id))
  }

  lemma AppendSubKeepsValid(db: Db, sub: Subscription)
    requires Valid(db) && sub.id == |db.subs| + 1
    ensures Valid(db.(subs := db.subs + [sub])) && (db.subs + [sub])[..|db.subs|] == db.subs
  {
    assert (db.subs + [sub])[..|db.subs|] == db.subs;
  }

  /** A stored subscription names one of the four channels and a non-empty target. */
  predicate SubsWellFormed(subs: seq<Subscription>) {
    forall k :: 0 <= k < |subs| ==> subs[k].channel in Channels && subs[k].target != []
  }

  /**
   * subscribe keeps every subscription well formed: the channel is upper-cased and checked, an
   * EMAIL/SMS/WHATSAPP target must be non-empty after stripping, and STUB stores "stub" for no target.
   */
  lemma SubscribeKeepsWellFormed(db: Db, token: string, channel: Option<string>, target: Option<string>,
                                 active: bool, now: int)
    requires Valid(db) && SubsWellFormed(db.subs)
    ensures SubsWellFormed(Subscribe(db, token, channel, target, active, now).db.subs)
  {
    var ti := TicketWithToken(db.tickets, token);
    var f := SubscribeFields(channel, target);
    if ti.Some? && f.Ok? {
      var sub := Subscription(|db.subs| + 1, db.tickets[ti.value].id, f.value.0, f.value.1, active, now);
      assert Subscribe(db, token, channel, target, active, now).db.subs == db.subs + [sub];
      AppendWellFormed(db.subs, sub);
    }
  }

  lemma AppendWellFormed(subs: seq<Subscription>, sub: Subscription)
    requires SubsWellFormed(subs) && sub.channel in Channels && sub.target != []
    ensures SubsWellFormed(subs + [sub])
  {
    forall k | 0 <= k < |subs + [sub]| ensures (subs + [sub])[k].channel in Channels && (subs + [sub])[k].target != [] {
      if k < |subs| {
        assert (subs + [sub])[k] == subs[k];
      }
    }
  }

  /** The two batch selections: rows in one state, or FAILED rows created at or before a cutoff. */
  datatype Selector = InState(state: OutboxState) | FailedBy(cutoff: int)

  predicate Selects(f: Selector, o: OutboxItem) {
    match f
    case InState(s) => o.state == s
    case FailedBy(c) => o.state == Failed && o.createdAt <= c
  }

  /** .filter(f).order_by(id.asc()).limit(limit), as positions at or after `from`. */
  function PickFrom(os: seq<OutboxItem>, f: Selector, limit: nat, from: nat): seq<nat>
    decreases |os| - from
  {
    if from >= |os| || limit == 0 then []
    else
      var taken := Selects(f, os[from]);
      var rest := PickFrom(os, f, if taken then limit - 1 else limit, from + 1);
      if taken then [from] + rest else rest
  }

  /** The picked positions are at most `limit` admitted rows at or after `from`, ascending. */
  lemma {:induction false} PickFromShape(os: seq<OutboxItem>, f: Selector, limit: nat, from: nat)
    ensures var r := PickFrom(os, f, limit, from);
      && |r| <= limit
      && (forall i :: 0 <= i < |r| ==> from <= r[i] < |os| && Selects(f, os[r[i]]))
      && (forall i, j :: 0 <= i < j < |r| ==> r[i] < r[j])
    decreases |os| - from
  {
    if from < |os| && limit > 0 {
      var r := PickFrom(os, f, limit, from);
      var taken := Selects(f, os[from]);
      var l := if taken then limit - 1 else limit;
      var rest := PickFrom(os, f, l, from + 1);
      PickFromShape(os, f, l, from + 1);
      if taken {
        assert r == [from] + rest;
        forall i | 0 <= i < |r| ensures from <= r[i] < |os| && Selects(f, os[r[i]]) {
          if i > 0 {
            assert r[i] == rest[i - 1];
          }
        }
        forall i, j | 0 <= i < j < |r| ensures r[i] < r[j] {
          assert r[j] == rest[j - 1];
          if i > 0 {
            assert r[i] == rest[i - 1];
          }
        }
      } else {
        assert r == rest;
      }
    }
  }

  /** k is none of the positions in r. */
  predicate Avoids(r: seq<nat>, k: int) {
    forall i :: 0 <= i < |r| ==> r[i] != k
  }

  /** A row the selector admits is left out only when the batch is full of lower positions. */
  lemma {:induction false} PickFromComplete(os: seq<OutboxItem>, f: Selector, limit: nat, from: nat, k: int)
    requires from <= k < |os| && Selects(f, os[k])
    requires Avoids(PickFrom(os, f, limit, from), k)
    ensures var r := PickFrom(os, f, limit, from);
      |r| == limit && (r == [] || r[|r| - 1] < k)
    decreases |os| - from
  {
    var r := PickFrom(os, f, limit, from);
    if limit > 0 {
      var taken := Selects(f, os[from]);
      var l := if taken then limit - 1 else limit;
      var rest := PickFrom(os, f, l, from + 1);
      if taken {
        assert r == [from] + rest;
        assert k != from by {
          assert r[0] == from;
        }
        forall i | 0 <= i < |rest| ensures rest[i] != k {
          assert rest[i] == r[i + 1];
        }
      } else {
        assert r == rest;
      }
      PickFromComplete(os, f, l, from + 1, k);
      assert taken ==> r[|r| - 1] == if rest == [] then from else rest[|rest| - 1];
    } else {
      assert r == [];
    }
  }

  /** The first `limit` rows the selector admits, in ascending id order. */
  function Pick(os: seq<OutboxItem>, f: Selector, limit: nat): (r: seq<nat>)
    ensures |r| <= limit
    ensures forall i :: 0 <= i < |r| ==> r[i] < |os| && Selects(f, os[r[i]])
    ensures forall i, j :: 0 <= i < j < |r| ==> r[i] < r[j]
  {
    PickFromShape(os, f, limit, 0);
    PickFrom(os, f, limit, 0)
  }

  /** Pick leaves out a row the selector admits only when it is full and every picked row comes first. */
  lemma PickComplete(os: seq<OutboxItem>, f: Selector, limit: nat, k: int)
    requires 0 <= k < |os| && Selects(f, os[k]) && k !in Pick(os, f, limit)
    ensures var r := Pick(os, f, limit);
      |r| == limit && (r == [] || r[|r| - 1] < k)
  {
    PickFromComplete(os, f, limit, 0, k);
  }

  /** os with upd applied at the positions in sel: the rows a batch loop rewrote. */
  function SendAt(os: seq<OutboxItem>, sel: seq<nat>, provider: string, now: int): (r: seq<OutboxItem>)
    ensures |r| == |os|
  {
    seq(|os|, k requires 0 <= k < |os| => if k in sel then SendItem(os[k], provider, now) else os[k])
  }

  /** How many of the selected rows the send leaves SENT. */
  function CountSent(os: seq<OutboxItem>, sel: seq<nat>, provider: string, now: int): (n: nat)
    requires forall i :: 0 <= i < |sel| ==> sel[i] < |os|
    ensures n <= |sel|
  {
    if sel == [] then 0
    else
      var last := if SendItem(os[sel[|sel| - 1]], provider, now).state == Sent then 1 else 0;
      CountSent(os, sel[..|sel| - 1], provider, now) + last
  }

  datatype Drained = Drained(queued: nat, sent: nat)

  /**
   * The drain endpoint's state parameter: stripped and upper-cased, PENDING when missing or empty
   * (a default that strip and upper leave as it is).
   */
  function DrainState(param: Option<string>): Option<OutboxState> {
    var s := if param.Some? && param.value != [] then Upper(Strip(param.value)) else "PENDING";
    if s == "PENDING" then Some(Pending) else if s == "FAILED" then Some(Failed) else None
  }

  /**
   * A missing state means PENDING; a state written without surrounding space and without
   * lower-case letters is taken as given, so PENDING and FAILED select their rows and nothing else does.
   */
  lemma DrainStateNames(w: string)
    requires w != [] && !IsSpace(w[0]) && !IsSpace(w[|w| - 1])
    requires forall k :: 0 <= k < |w| ==> !('a' <= w[k] <= 'z')
    ensures DrainState(None) == Some(Pending) && DrainState(Some([])) == Some(Pending)
    ensures DrainState(Some(w)) == if w == "PENDING" then Some(Pending) else if w == "FAILED" then Some(Failed) else None
  {
    StripFixpoint(w);
    UpperFixpoint(w);
  }

  /** drain / run_drain: send the first `limit` rows in the given state, counting those that end SENT. */
  function Drain(db: Db, state: Option<string>, limit: nat, provider: string, now: int): (r: Step<Drained>)
    ensures r.resp.Fail? ==> r.db == db && r.resp.code == 400
  {
    match DrainState(state)
    case None => Step(db, Fail(400, "state must be PENDING or FAILED"))
    case Some(st) =>
      var sel := Pick(db.outbox, InState(st), limit);
      Step(db.(outbox := SendAt(db.outbox, sel, provider, now)),
           Ok(Drained(|sel|, CountSent(db.outbox, sel, provider, now))))
  }

  /** Only rows the selector admits are picked, so a count of picked rows meets the send's outcome. */
  lemma {:induction false} CountSentBounds(os: seq<OutboxItem>, sel: seq<nat>, st: OutboxState, provider: string, now: int)
    requires forall i :: 0 <= i < |sel| ==> sel[i] < |os| && os[sel[i]].state == st
    ensures st != Pending ==> CountSent(os, sel, provider, now) == (if st == Sent then |sel| else 0)
    ensures st == Pending && provider == "stub" ==> CountSent(os, sel, provider, now) == |sel|
    ensures st == Pending && provider != "stub" ==> CountSent(os, sel, provider, now) == 0
  {
    if sel != [] {
      CountSentBounds(os, sel[..|sel| - 1], st, provider, now);
    }
  }

  /**
   * run_drain reports at most `limit` queued rows and sent <= queued. Draining FAILED sends nothing
   * and changes nothing, because a row that is not PENDING is left alone; draining PENDING through
   * the stub provider sends every picked row.
   */
  lemma DrainCounts(db: Db, state: Option<string>, limit: nat, provider: string, now: int)
    requires DrainState(state).Some?
    ensures var r := Drain(db, state, limit, provider, now);
      var st := DrainState(state).value;
      && r.resp.Ok? && r.resp.value.queued <= limit
      && r.resp.value.sent <= r.resp.value.queued
      && (st == Failed ==> r.resp.value.sent == 0 && r.db == db)
      && (st == Pending && provider == "stub" ==> r.resp.value.sent == r.resp.value.queued)
  {
    var st := DrainState(state).value;
    var sel := Pick(db.outbox, InState(st), limit);
    CountSentBounds(db.outbox, sel, st, provider, now);
    if st == Failed {
      forall k | 0 <= k < |db.outbox| ensures SendAt(db.outbox, sel, provider, now)[k] == db.outbox[k] {
        if k in sel {
          var i :| 0 <= i < |sel| && sel[i] == k;
        }
      }
      assert SendAt(db.outbox, sel, provider, now) == db.outbox;
    }
  }

  /**
   * run_drain touches only the picked rows, which are the lowest-id rows in the state, and a
   * picked PENDING row is never PENDING afterwards.
   */
  lemma DrainTouchesOnlyPicked(db: Db, state: Option<string>, limit: nat, provider: string, now: int, k: int)
    requires DrainState(state).Some? && 0 <= k < |db.outbox|
    ensures var r := Drain(db, state, limit, provider, now);
      var st := DrainState(state).value;
      var sel := Pick(db.outbox, InState(st), limit);
      && r.db == db.(outbox := r.db.outbox) && |r.db.outbox| == |db.outbox|
      && (k !in sel ==> r.db.outbox[k] == db.outbox[k])
      && (k !in sel && db.outbox[k].state == st ==> |sel| == limit && (sel == [] || sel[|sel| - 1] < k))
      && (k in sel ==> db.outbox[k].state == st && r.db.outbox[k] == SendItem(db.outbox[k], provider, now))
      && (k in sel && st == Pending ==> r.db.outbox[k].state != Pending)
  {
    var st := DrainState(state).value;
    var sel := Pick(db.outbox, InState(st), limit);
    if k in sel {
      var i :| 0 <= i < |sel| && sel[i] == k;
    } else if db.outbox[k].state == st {
      PickComplete(db.outbox, InState(st), limit, k);
    }
  }

  /** retry's rewrite of one row: back to PENDING with one more retry and no error. */
  function RetryItem(o: OutboxItem): (r: OutboxItem)
    ensures r.state == Pending && r.retryCount == o.retryCount + 1 && r.error.None?
  {
    o.(state := Pending, retryCount := o.retryCount + 1, error := None)
  }

  function RetryAt(os: seq<OutboxItem>, sel: seq<nat>): (r: seq<OutboxItem>)
    ensures |r| == |os|
  {
    seq(|os|, k requires 0 <= k < |os| => if k in sel then RetryItem(os[k]) else os[k])
  }

  /** retry: the first `limit` FAILED rows created at least olderThan seconds ago go back to PENDING. */
  function Retry(db: Db, limit: nat, olderThan: int, now: int): (r: Step<nat>)
  {
    var sel := Pick(db.outbox, FailedBy(now - olderThan), limit);
    Step(db.(outbox := RetryAt(db.outbox, sel)), Ok(|sel|))
  }

  /**
   * retry moves only FAILED rows created at or before the cutoff, at most `limit` of them and the
   * lowest ids first, back to PENDING with retry_count + 1 and the error cleared; every other row
   * and table is untouched.
   */
  lemma RetryOutcome(db: Db, limit: nat, olderThan: int, now: int)
    ensures var r := Retry(db, limit, olderThan, now);
      var sel := Pick(db.outbox, FailedBy(now - olderThan), limit);
      && r.resp == Ok(|sel|) && |sel| <= limit
      && r.db == db.(outbox := r.db.outbox)
      && (forall k :: 0 <= k < |db.outbox| ==>
            if k in sel then
              db.outbox[k].state == Failed && db.outbox[k].createdAt <= now - olderThan
              && r.db.outbox[k] == db.outbox[k].(state := Pending, retryCount := db.outbox[k].retryCount + 1, error := None)
            else r.db.outbox[k] == db.outbox[k])
      && (forall k :: (0 <= k < |db.outbox| && k !in sel && db.outbox[k].state == Failed
            && db.outbox[k].createdAt <= now - olderThan) ==> |sel| == limit && (sel == [] || sel[|sel| - 1] < k))
  {
    var sel := Pick(db.outbox, FailedBy(now - olderThan), limit);
    forall k | 0 <= k < |db.outbox| && k in sel
      ensures db.outbox[k].state == Failed && db.outbox[k].createdAt <= now - olderThan
    {
      var i :| 0 <= i < |sel| && sel[i] == k;
    }
    forall k | 0 <= k < |db.outbox| && k !in sel && db.outbox[k].state == Failed && db.outbox[k].createdAt <= now - olderThan
      ensures |sel| == limit && (sel == [] || sel[|sel| - 1] < k)
    {
      PickComplete(db.outbox, FailedBy(now - olderThan), limit, k);
    }
  }
}
