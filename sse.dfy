/**
 * The server half of the guest's live status feed (backend/app/routes/sse.py): each poll selects
 * the ticket's events with an id above the cursor last_id, in ascending id order and at most 50,
 * writes one frame per event and moves the cursor to each event it writes. Across polls of a
 * table that only grows at the end, what has been written is exactly the ticket's events between
 * the starting cursor and the current one: none skipped, none twice.
 */
module Sse {
  import opened Wrappers
  import opened Text
  import opened Models
  import opened Database

  /** The .limit(50) of the poll query. */
  const BatchLimit: nat := 50

  /** The comment line gen() writes before its first poll. */
  const Connected: string := ": connected\n\n"

  // ---------------------------------------------------------------------------------------------
  // The poll query

  /** The rows of the ticket, in table order. */
  function OfTicket(es: seq<StatusEvent>, t: int): (r: seq<StatusEvent>)
    ensures |r| <= |es|
  {
    if es == [] then []
    else (if es[0].ticketId == t then [es[0]] else []) + OfTicket(es[1..], t)
  }

  /** The ids of s count up by one from base + 1, as a slice of the table starting at position base does. */
  predicate DenseFrom(s: seq<StatusEvent>, base: int) {
    forall i :: 0 <= i < |s| ==> s[i].id == base + i + 1
  }

  /** x clamped to a position of a table of n rows. */
  function Clamp(x: int, n: nat): (r: nat)
    ensures r <= n
    ensures 0 <= x <= n ==> r == x
  {
    if x < 0 then 0 else if x > n then n else x
  }

  /**
   * The ticket's events with lo < id <= hi, in id order. The table's ids are its positions plus
   * one, so these are the ticket's rows in a slice of it.
   */
  function Window(es: seq<StatusEvent>, t: int, lo: int, hi: int): seq<StatusEvent> {
    var a := Clamp(lo, |es|);
    var b := Clamp(hi, |es|);
    if a <= b then OfTicket(es[a..b], t) else []
  }

  /**
   * The poll query: StatusEvent.ticket_id == ticket_id, StatusEvent.id > last_id, ordered by id
   * ascending, at most 50 rows.
   */
  function Batch(es: seq<StatusEvent>, t: int, lastId: int): (r: seq<StatusEvent>)
    ensures |r| <= BatchLimit
  {
    var m := Window(es, t, lastId, |es|);
    if |m| <= BatchLimit then m else m[..BatchLimit]
  }

  /** last_id after a batch: the id of the last event written, unchanged when there was none. */
  function Advance(batch: seq<StatusEvent>, lastId: int): int {
    if batch == [] then lastId else batch[|batch| - 1].id
  }

  lemma SliceDense(es: seq<StatusEvent>, a: nat, b: nat)
    requires EventIds(es) && a <= b <= |es|
    ensures DenseFrom(es[a..b], a)
  {
  }

  lemma {:induction false} OfTicketAppend(a: seq<StatusEvent>, b: seq<StatusEvent>, t: int)
    ensures OfTicket(a + b, t) == OfTicket(a, t) + OfTicket(b, t)
  {
    if a == [] {
      assert a + b == b;
    } else {
      var head := if a[0].ticketId == t then [a[0]] else [];
      assert (a + b)[0] == a[0] && (a + b)[1..] == a[1..] + b;
      OfTicketAppend(a[1..], b, t);
      calc {
        OfTicket(a + b, t);
        head + OfTicket(a[1..] + b, t);
        head + (OfTicket(a[1..], t) + OfTicket(b, t));
        (head + OfTicket(a[1..], t)) + OfTicket(b, t);
      }
    }
  }

  /**
   * The ticket's rows of a dense slice: all of the ticket, ids strictly ascending and inside the
   * slice's range, and every row of the ticket in the slice among them.
   */
  lemma OfTicketShape(s: seq<StatusEvent>, base: int, t: int)
    requires DenseFrom(s, base)
    ensures var r := OfTicket(s, t);
      && (forall i :: 0 <= i < |r| ==> r[i].ticketId == t && base < r[i].id <= base + |s|)
      && (forall i, j :: 0 <= i < j < |r| ==> r[i].id < r[j].id)
      && (forall e :: e in s && e.ticketId == t ==> e in r)
  {
    OfTicketBounds(s, base, t);
    OfTicketAscending(s, base, t);
    OfTicketKeeps(s, t);
  }

  /** The ids of the ticket's rows of a dense slice are strictly ascending. */
  lemma {:induction false} OfTicketAscending(s: seq<StatusEvent>, base: int, t: int)
    requires DenseFrom(s, base)
    ensures forall i, j :: 0 <= i < j < |OfTicket(s, t)| ==> OfTicket(s, t)[i].id < OfTicket(s, t)[j].id
  {
    if s != [] {
      OfTicketAscending(s[1..], base + 1, t);
      var rest := OfTicket(s[1..], t);
      var r := OfTicket(s, t);
      if s[0].ticketId == t {
        OfTicketBounds(s[1..], base + 1, t);
        assert r == [s[0]] + rest;
        forall i, j | 0 <= i < j < |r| ensures r[i].id < r[j].id {
          assert r[j] == rest[j - 1];
          if i > 0 {
            assert r[i] == rest[i - 1];
          }
        }
      } else {
        assert r == rest;
      }
    }
  }

  /** Every row of the ticket is among the ticket's rows. */
  lemma {:induction false} OfTicketKeeps(s: seq<StatusEvent>, t: int)
    ensures forall e :: e in s && e.ticketId == t ==> e in OfTicket(s, t)
  {
    if s != [] {
      OfTicketKeeps(s[1..], t);
      var r := OfTicket(s, t);
      assert r == (if s[0].ticketId == t then [s[0]] else []) + OfTicket(s[1..], t);
      forall e | e in s && e.ticketId == t ensures e in r {
        if e != s[0] {
          assert e in s[1..] by {
            var k :| 0 <= k < |s| && s[k] == e;
            assert s[1..][k - 1] == e;
          }
        }
      }
    }
  }

  /**
   * The first k+1 rows of the ticket in a dense slice are its rows up to the (k+1)-th one's
   * position: a prefix of the selection is the selection of a prefix.
   */
  lemma {:induction false} OfTicketTake(s: seq<StatusEvent>, base: int, t: int, k: nat)
    requires DenseFrom(s, base) && k < |OfTicket(s, t)|
    ensures base < OfTicket(s, t)[k].id <= base + |s|
    ensures OfTicket(s, t)[..k + 1] == OfTicket(s[..OfTicket(s, t)[k].id - base], t)
  {
    var r := OfTicket(s, t);
    var rest := OfTicket(s[1..], t);
    if s[0].ticketId == t && k == 0 {
      assert r == [s[0]] + rest;
      TakeFirst(s, t);
    } else {
      var j := if s[0].ticketId == t then k - 1 else k;
      assert r == (if s[0].ticketId == t then [s[0]] else []) + rest;
      OfTicketTake(s[1..], base + 1, t, j);
      if s[0].ticketId == t {
        TakeHit(s, base, t, k);
      } else {
        TakeMiss(s, base, t, k);
      }
    }
  }

  /** The step of OfTicketTake past a first row of the ticket, given its conclusion for the rest. */
  lemma TakeHit(s: seq<StatusEvent>, base: int, t: int, k: nat)
    requires s != [] && s[0].ticketId == t && 0 < k < |OfTicket(s, t)|
    requires k - 1 < |OfTicket(s[1..], t)|
    requires base + 1 < OfTicket(s[1..], t)[k - 1].id <= base + |s|
    requires OfTicket(s[1..], t)[..k] == OfTicket(s[1..][..OfTicket(s[1..], t)[k - 1].id - base - 1], t)
    ensures base < OfTicket(s, t)[k].id <= base + |s|
    ensures OfTicket(s, t)[..k + 1] == OfTicket(s[..OfTicket(s, t)[k].id - base], t)
  {
    var r := OfTicket(s, t);
    var rest := OfTicket(s[1..], t);
    assert r == [s[0]] + rest;
    assert r[k] == rest[k - 1];
    ConsTake(s, r[k].id - base, t);
    assert r[..k + 1] == [s[0]] + rest[..k];
  }

  /** The step of OfTicketTake past a first row of another ticket, given its conclusion for the rest. */
  lemma TakeMiss(s: seq<StatusEvent>, base: int, t: int, k: nat)
    requires s != [] && s[0].ticketId != t && k < |OfTicket(s, t)|
    requires k < |OfTicket(s[1..], t)|
    requires base + 1 < OfTicket(s[1..], t)[k].id <= base + |s|
    requires OfTicket(s[1..], t)[..k + 1] == OfTicket(s[1..][..OfTicket(s[1..], t)[k].id - base - 1], t)
    ensures base < OfTicket(s, t)[k].id <= base + |s|
    ensures OfTicket(s, t)[..k + 1] == OfTicket(s[..OfTicket(s, t)[k].id - base], t)
  {
    assert OfTicket(s, t) == OfTicket(s[1..], t);
    ConsTake(s, OfTicket(s, t)[k].id - base, t);
  }

  /** The ticket's rows of a dense slice are of the ticket, with ids in the slice's range. */
  lemma {:induction false} OfTicketBounds(s: seq<StatusEvent>, base: int, t: int)
    requires DenseFrom(s, base)
    ensures forall i :: 0 <= i < |OfTicket(s, t)| ==>
      OfTicket(s, t)[i].ticketId == t && base < OfTicket(s, t)[i].id <= base + |s|
  {
    if s != [] {
      OfTicketBounds(s[1..], base + 1, t);
      var rest := OfTicket(s[1..], t);
      var r := OfTicket(s, t);
      if s[0].ticketId == t {
        assert r == [s[0]] + rest;
        assert forall i :: 1 <= i < |r| ==> r[i] == rest[i - 1];
      } else {
        assert r == rest;
        forall i | 0 <= i < |r| ensures r[i].ticketId == t && base < r[i].id <= base + |s| {
          assert r[i] == rest[i];
        }
      }
    }
  }

  lemma TakeFirst(s: seq<StatusEvent>, t: int)
    requires s != [] && s[0].ticketId == t
    ensures OfTicket(s[..1], t) == [s[0]]
  {
    assert s[..1][1..] == [];
  }

  /** Selecting from a non-empty prefix: the first row's share, then the selection from the rest of the prefix. */
  lemma ConsTake(s: seq<StatusEvent>, p: nat, t: int)
    requires 1 <= p <= |s|
    ensures OfTicket(s[..p], t) == (if s[0].ticketId == t then [s[0]] else []) + OfTicket(s[1..][..p - 1], t)
  {
    assert s[..p][0] == s[0] && s[..p][1..] == s[1..][..p - 1];
  }

  /**
   * Resumable delivery: the events of a window are all of the ticket, with ids strictly ascending
   * inside (lo, hi], and no event of the ticket in that range is left out. A stream holding its
   * invariant has therefore written each of the ticket's events between its starting cursor and
   * its current one exactly once, in id order.
   */
  lemma WindowShape(es: seq<StatusEvent>, t: int, lo: int, hi: int)
    requires EventIds(es)
    ensures var w := Window(es, t, lo, hi);
      && (forall i :: 0 <= i < |w| ==> w[i].ticketId == t && lo < w[i].id <= hi)
      && (forall i, j :: 0 <= i < j < |w| ==> w[i].id < w[j].id)
      && (forall e :: e in es && e.ticketId == t && lo < e.id <= hi ==> e in w)
  {
    var a := Clamp(lo, |es|);
    var b := Clamp(hi, |es|);
    if a <= b {
      var s := es[a..b];
      SliceDense(es, a, b);
      OfTicketShape(s, a, t);
      assert Window(es, t, lo, hi) == OfTicket(s, t);
      var w := OfTicket(s, t);
      forall i | 0 <= i < |w| ensures w[i].ticketId == t && lo < w[i].id <= hi {
        assert a < w[i].id <= a + |s| && (lo <= a && b <= hi);
      }
      forall e | e in es && e.ticketId == t && lo < e.id <= hi ensures e in s {
        SliceHolds(es, lo, hi, e);
      }
    } else {
      assert hi < lo;
    }
  }

  /** A row of the table whose id lies in (lo, hi] is a row of the slice the window takes. */
  lemma SliceHolds(es: seq<StatusEvent>, lo: int, hi: int, e: StatusEvent)
    requires EventIds(es) && Clamp(lo, |es|) <= Clamp(hi, |es|) && e in es && lo < e.id <= hi
    ensures e in es[Clamp(lo, |es|)..Clamp(hi, |es|)]
  {
    var a, b := Clamp(lo, |es|), Clamp(hi, |es|);
    var k :| 0 <= k < |es| && es[k] == e;
    assert a <= k < b;
    assert es[a..b][k - a] == e;
  }

  /**
   * A poll's batch is the window from the cursor to where the cursor moves: the first 50 of the
   * ticket's newer events are exactly its events up to the id of the last of them.
   */
  lemma BatchIsWindow(es: seq<StatusEvent>, t: int, lastId: int)
    requires EventIds(es)
    ensures var b := Batch(es, t, lastId);
      && b == Window(es, t, lastId, Advance(b, lastId))
      && lastId <= Advance(b, lastId)
      && (b != [] ==> Advance(b, lastId) <= |es|)
  {
    var lo := Clamp(lastId, |es|);
    var m := OfTicket(es[lo..|es|], t);
    var b := Batch(es, t, lastId);
    if b != [] {
      var k := |b| - 1;
      assert b == m[..k + 1];
      SelectionPrefix(es, lo, t, k);
    }
  }

  /** The first k+1 of the ticket's rows from position lo on are its rows up to the id of the (k+1)-th. */
  lemma SelectionPrefix(es: seq<StatusEvent>, lo: nat, t: int, k: nat)
    requires EventIds(es) && lo <= |es| && k < |OfTicket(es[lo..|es|], t)|
    ensures var adv := OfTicket(es[lo..|es|], t)[k].id;
      && lo < adv <= |es|
      && OfTicket(es[lo..|es|], t)[..k + 1] == OfTicket(es[lo..adv], t)
  {
    var s := es[lo..|es|];
    SliceDense(es, lo, |es|);
    OfTicketTake(s, lo, t, k);
    assert s[..OfTicket(s, t)[k].id - lo] == es[lo..OfTicket(s, t)[k].id];
  }

  /**
   * One poll's batch: at most 50 of the ticket's events with an id above the cursor, in strictly
   * ascending id order; when fewer than 50 come back, every such event is among them.
   */
  lemma BatchSelects(es: seq<StatusEvent>, t: int, lastId: int)
    requires EventIds(es)
    ensures var b := Batch(es, t, lastId);
      && |b| <= BatchLimit
      && (forall i :: 0 <= i < |b| ==> b[i].ticketId == t && lastId < b[i].id)
      && (forall i, j :: 0 <= i < j < |b| ==> b[i].id < b[j].id)
      && (|b| < BatchLimit ==> forall e :: e in es && e.ticketId == t && lastId < e.id ==> e in b)
  {
    var b := Batch(es, t, lastId);
    BatchIsWindow(es, t, lastId);
    WindowShape(es, t, lastId, Advance(b, lastId));
    if |b| < BatchLimit {
      assert b == Window(es, t, lastId, |es|);
      WindowShape(es, t, lastId, |es|);
      forall e | e in es && e.ticketId == t && lastId < e.id ensures e in b {
        var k :| 0 <= k < |es| && es[k] == e;
        assert e.id <= |es|;
      }
    }
  }

  /** Two adjacent windows make up the window over both ranges. */
  lemma WindowSplit(es: seq<StatusEvent>, t: int, a: int, b: int, c: int)
    requires a <= b <= c
    ensures Window(es, t, a, b) + Window(es, t, b, c) == Window(es, t, a, c)
  {
    var x, y, z := Clamp(a, |es|), Clamp(b, |es|), Clamp(c, |es|);
    assert es[x..z] == es[x..y] + es[y..z];
    OfTicketAppend(es[x..y], es[y..z], t);
  }

  /** Rows appended to the table change no window that ends inside the old table, nor an empty one. */
  lemma WindowOfPrefix(es: seq<StatusEvent>, es2: seq<StatusEvent>, t: int, lo: int, hi: int)
    requires |es| <= |es2| && es2[..|es|] == es
    requires lo == hi || hi <= |es|
    ensures Window(es2, t, lo, hi) == Window(es, t, lo, hi)
  {
    if lo < hi {
      var a, b := Clamp(lo, |es|), Clamp(hi, |es|);
      assert a == Clamp(lo, |es2|) && b == Clamp(hi, |es2|) && a <= b;
      assert es2[a..b] == es2[..|es|][a..b];
    } else if lo > hi {
      assert Clamp(lo, |es2|) >= Clamp(hi, |es2|) && Clamp(lo, |es|) >= Clamp(hi, |es|);
    }
  }

  // ---------------------------------------------------------------------------------------------
  // Frames

  /** The JSON payload of one event; its rendering by json.dumps is not part of this model. */
  datatype Payload = Payload(id: int, requestId: int, fromStatus: Option<string>, toStatus: string,
                             note: Option<string>, createdAt: int)

  /** What gen() writes: a text line, or the data line carrying a payload. */
  datatype Chunk = Line(text: string) | Data(payload: Payload)

  function PayloadOf(e: StatusEvent): Payload {
    Payload(e.id, e.requestId, if e.fromStatus.Some? then Some(StatusName(e.fromStatus.value)) else None,
            StatusName(e.toStatus), e.note, e.createdAt)
  }

  /** The three writes for one event: "id: N\n", "event: status\n", then the data line. */
  function Frame(e: StatusEvent): (f: seq<Chunk>)
    ensures |f| == 3 && f[0].Line? && f[2] == Data(PayloadOf(e))
  {
    [Line("id: " + IntToString(e.id) + "\n"), Line("event: status\n"), Data(PayloadOf(e))]
  }

  /** The frames of a run of events, in order. */
  function FramesOf(es: seq<StatusEvent>): (r: seq<Chunk>)
    ensures |r| == 3 * |es|
  {
    if es == [] then [] else FramesOf(es[..|es| - 1]) + Frame(es[|es| - 1])
  }

  lemma {:induction false} FramesAppend(a: seq<StatusEvent>, b: seq<StatusEvent>)
    ensures FramesOf(a + b) == FramesOf(a) + FramesOf(b)
  {
    if b != [] {
      var n := |b| - 1;
      assert (a + b)[..|a + b| - 1] == a + b[..n] && (a + b)[|a + b| - 1] == b[n];
      FramesAppend(a, b[..n]);
      assert FramesOf(a + b) == (FramesOf(a) + FramesOf(b[..n])) + Frame(b[n]);
    } else {
      assert a + b == a;
    }
  }

  /** The number an "id: N\n" line carries, as an EventSource client reads it. */
  function LineId(s: string): Option<int> {
    if |s| >= 5 && s[..4] == "id: " && s[|s| - 1] == '\n' then ParseInt(s[4..|s| - 1]) else None
  }

  /** The id line of a frame carries the same number as its payload's id. */
  lemma FrameIdMatchesPayload(e: StatusEvent)
    ensures LineId(Frame(e)[0].text) == Some(Frame(e)[2].payload.id)
  {
    var d := IntToString(e.id);
    var s := "id: " + d + "\n";
    assert d != [] by {
      if e.id < 0 {
        assert d == "-" + NatToString(-e.id);
      }
    }
    assert s[..4] == "id: " && s[4..|s| - 1] == d;
    ParseIntToString(e.id);
  }

  // ---------------------------------------------------------------------------------------------
  // The stream

  /** last_id: the query argument as int, 0 when absent or not an integer. */
  function StartCursor(arg: Option<string>): int {
    if arg.Some? && ParseInt(arg.value).Some? then ParseInt(arg.value).value else 0
  }

  /** ticket_events before streaming: the ticket by token (404 when unknown), and the starting cursor. */
  function OpenStream(tickets: seq<Ticket>, token: string, lastIdArg: Option<string>): (r: Response<(int, int)>)
    ensures r.Ok? <==> TicketWithToken(tickets, token).Some?
    ensures r.Ok? ==> r.value.0 == tickets[TicketWithToken(tickets, token).value].id
    ensures r.Ok? ==> r.value.1 == (if lastIdArg.Some? && ParseInt(lastIdArg.value).Some? then ParseInt(lastIdArg.value).value else 0)
    ensures r.Fail? ==> r == Fail(404, "ticket not found")
  {
    match TicketWithToken(tickets, token)
    case None => Fail(404, "ticket not found")
    case Some(k) => Ok((tickets[k].id, StartCursor(lastIdArg)))
  }

  /** The generator of one stream: its ticket, the cursor it started from, the cursor now, and what it has written. */
  class EventTail {
    const ticketId: int
    const start: int
    var lastId: int
    var out: seq<Chunk>
    /** The table as of the last poll. */
    ghost var seen: seq<StatusEvent>

    /**
     * What has been written is the connect line and then one frame for each of the ticket's
     * events between the starting cursor and the current one.
     */
    ghost predicate Valid()
      reads this
    {
      && EventIds(seen)
      && start <= lastId
      && (lastId == start || lastId <= |seen|)
      && out == [Line(Connected)] + FramesOf(Window(seen, ticketId, start, lastId))
    }

    constructor (ticketId: int, lastId: int)
      ensures Valid() && this.ticketId == ticketId && start == lastId && this.lastId == lastId
      ensures out == [Line(Connected)]
    {
      this.ticketId := ticketId;
      start := lastId;
      this.lastId := lastId;
      out := [Line(Connected)];
      seen := [];
    }

    /**
     * One pass of gen()'s loop over the table as it now stands (the rows seen before, perhaps with
     * more appended): the batch's frames are written in order and the cursor follows each one.
     */
    method Poll(es: seq<StatusEvent>)
      requires Valid() && EventIds(es) && |seen| <= |es| && es[..|seen|] == seen
      modifies this
      ensures Valid() && seen == es
      ensures var b := Batch(es, ticketId, old(lastId));
        lastId == Advance(b, old(lastId)) && out == old(out) + FramesOf(b)
    {
      var events := Batch(es, ticketId, lastId);
      ghost var before := lastId;
      ghost var written := out;
      Write(events);
      PollStep(seen, es, ticketId, start, before);
      assert out == written + FramesOf(events);
      seen := es;
    }

    /** The for loop of one poll: each event's frame written, last_id set to its id. */
    method Write(events: seq<StatusEvent>)
      modifies this
      ensures lastId == Advance(events, old(lastId)) && out == old(out) + FramesOf(events)
      ensures seen == old(seen)
    {
      var i := 0;
      while i < |events|
        invariant 0 <= i <= |events|
        invariant seen == old(seen)
        invariant lastId == Advance(events[..i], old(lastId))
        invariant out == old(out) + FramesOf(events[..i])
      {
        var ev := events[i];
        lastId := ev.id;
        WriteStep(events, i, old(lastId));
        assert old(out) + FramesOf(events[..i + 1]) == out + Frame(ev);
        out := out + Frame(ev);
        i := i + 1;
      }
      assert events[..i] == events;
    }
  }

  /** One more event of the batch written: its frame follows the earlier ones, and the cursor is its id. */
  lemma WriteStep(events: seq<StatusEvent>, i: nat, lastId: int)
    requires i < |events|
    ensures FramesOf(events[..i + 1]) == FramesOf(events[..i]) + Frame(events[i])
    ensures Advance(events[..i + 1], lastId) == events[i].id
  {
    assert events[..i + 1][..i] == events[..i];
  }

  /** The invariant's step for what has been written. */
  lemma PollStep(seen: seq<StatusEvent>, es: seq<StatusEvent>, t: int, start: int, lastId: int)
    requires EventIds(es) && |seen| <= |es| && es[..|seen|] == seen
    requires start <= lastId && (lastId == start || lastId <= |seen|)
    ensures var b := Batch(es, t, lastId);
      var adv := Advance(b, lastId);
      && [Line(Connected)] + FramesOf(Window(seen, t, start, lastId)) + FramesOf(b)
         == [Line(Connected)] + FramesOf(Window(es, t, start, adv))
      && start <= adv && (adv == start || adv <= |es|)
  {
    KeepsValid(seen, es, t, start, lastId);
    FramesAppend(Window(seen, t, start, lastId), Batch(es, t, lastId));
  }

  /** The invariant's step: the old window, extended by the batch, is the window to the new cursor. */
  lemma KeepsValid(seen: seq<StatusEvent>, es: seq<StatusEvent>, t: int, start: int, lastId: int)
    requires EventIds(es) && |seen| <= |es| && es[..|seen|] == seen
    requires start <= lastId && (lastId == start || lastId <= |seen|)
    ensures var b := Batch(es, t, lastId);
      && Window(seen, t, start, lastId) + b == Window(es, t, start, Advance(b, lastId))
      && start <= Advance(b, lastId)
      && (Advance(b, lastId) == start || Advance(b, lastId) <= |es|)
  {
    WindowOfPrefix(seen, es, t, start, lastId);
    BatchIsWindow(es, t, lastId);
    WindowSplit(es, t, start, lastId, Advance(Batch(es, t, lastId), lastId));
  }
}
