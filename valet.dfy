/**
 * The logic of the valet console (frontend/app/valet/page.tsx): the per-status action buttons,
 * the scheduled-request countdown, the request list as pages load into it, and the browser
 * notifications raised when the polled list shows a new request or a car turning READY.
 * Rendering, routing and timers are not modelled; fetch results are inputs.
 */
module Valet {
  import opened Wrappers
  import opened Text
  import opened Models
  import opened Transitions
  import opened Database
  import Lifecycle

  // ---------------------------------------------------------------------------------------------
  // Action buttons

  /** ACTIONS_BY_STATUS[status] ?? []: the buttons offered for a request in that status. */
  function ActionsFor(status: string): seq<string> {
    if status == "SCHEDULED" then ["REQUESTED"]
    else if status == "REQUESTED" then ["RETRIEVING"]
    else if status == "ASSIGNED" then ["RETRIEVING"]
    else if status == "RETRIEVING" then ["READY"]
    else if status == "READY" then ["PICKED_UP"]
    else []
  }

  /** ACTION_LABELS[action]. */
  function ActionLabel(action: string): Option<string> {
    if action == "REQUESTED" then Some("Get car")
    else if action == "RETRIEVING" then Some("Retrieving")
    else if action == "READY" then Some("Ready (car at exit)")
    else if action == "PICKED_UP" then Some("Picked Up")
    else None
  }

  /**
   * The console only offers moves the backend's ALLOWED_TRANSITIONS accepts; every button has a
   * label of its own; and PICKED_UP, CLOSED and CANCELED, and only they, offer none.
   */
  lemma ActionsWithinTable(s: Status)
    ensures forall a :: a in ActionsFor(StatusName(s)) ==> ParseStatus(a).Some? && ParseStatus(a).value in Allowed(s)
    ensures forall a :: a in ActionsFor(StatusName(s)) ==> ActionLabel(a).Some?
    ensures ActionsFor(StatusName(s)) == [] <==> s in {PickedUp, Closed, Canceled}
  {
  }

  /**
   * Pressing any offered button as a valet of the request's venue passes every check of
   * update_request_status: the request is found and the move is allowed.
   */
  lemma ActionPassesStatusCheck(db: Db, user: User, k: nat, action: string)
    requires Valid(db) && k < |db.requests|
    requires !Lifecycle.Forbidden(user, Lifecycle.VenueOfRequest(db, k))
    requires action in ActionsFor(StatusName(db.requests[k].status))
    ensures ParseStatus(action).Some?
    ensures Lifecycle.StatusChangeCheck(db, user, db.requests[k].id, Some(action)) == Ok((k, ParseStatus(action).value))
  {
    ActionsWithinTable(db.requests[k].status);
    assert RequestAt(db.requests, db.requests[k].id) == Some(k);
  }

  // ---------------------------------------------------------------------------------------------
  // ScheduledCountdown

  /** s.toString().padStart(2, "0"). */
  function Pad2(n: nat): (r: string)
    ensures AllDigits(r) && |r| >= 2
  {
    var d := NatToString(n);
    if |d| < 2 then "0" + d else d
  }

  /** A number below 60 pads to exactly two digits that read back as the number. */
  lemma Pad2RoundTrip(n: nat)
    requires n < 60
    ensures |Pad2(n)| == 2 && ParseDigits(Pad2(n)) == n
  {
    ParseNatToString(n);
    var d := NatToString(n);
    if n < 10 {
      assert d == [DigitChar(n)];
      assert Pad2(n) == ['0', DigitChar(n)];
      assert Pad2(n)[..1] == ['0'] && Pad2(n)[..1][..0] == [];
    } else {
      assert d == NatToString(n / 10) + [DigitChar(n % 10)];
      assert NatToString(n / 10) == [DigitChar(n / 10)];
    }
  }

  /** The whole seconds until the due time, never below zero: Math.max(0, Math.floor((at - now) / 1000)). */
  function SecondsLeft(at: int, now: int): nat {
    var q := (at - now) / 1000;
    if q < 0 then 0 else q
  }

  /**
   * The countdown's text at time now (milliseconds): empty with no due time, "Due now" once less
   * than a second is left, otherwise "m:ss remaining".
   */
  function Countdown(scheduledFor: Option<int>, now: int): string {
    if scheduledFor.None? then ""
    else
      var sec := SecondsLeft(scheduledFor.value, now);
      if sec <= 0 then "Due now"
      else NatToString(sec / 60) + ":" + Pad2(sec % 60) + " remaining"
  }

  const RemainingSuffix: string := " remaining"

  /** Reading an "m:ss remaining" text back as a number of seconds. */
  function ReadRemaining(text: string): Option<nat> {
    if |text| < |RemainingSuffix| + 4 || text[|text| - |RemainingSuffix|..] != RemainingSuffix then None
    else
      var body := text[..|text| - |RemainingSuffix|];
      var mins := body[..|body| - 3];
      var secs := body[|body| - 2..];
      if body[|body| - 3] == ':' && mins != [] && AllDigits(mins) && AllDigits(secs) then
        Some(60 * ParseDigits(mins) + ParseDigits(secs))
      else None
  }

  /** "Due now" exactly when less than a whole second is left. */
  lemma CountdownDueNow(at: int, now: int)
    ensures Countdown(Some(at), now) == "Due now" <==> at - now < 1000
  {
    var sec := SecondsLeft(at, now);
    if sec > 0 {
      var t := Countdown(Some(at), now);
      assert t[|t| - 1] == 'g';
    }
  }

  /** Before the due time the text reads back as exactly the whole seconds left, with the seconds part below 60. */
  lemma CountdownReadsBack(at: int, now: int)
    requires at - now >= 1000
    ensures ReadRemaining(Countdown(Some(at), now)) == Some((at - now) / 1000)
  {
    var sec := SecondsLeft(at, now);
    var m := NatToString(sec / 60);
    var ss := Pad2(sec % 60);
    Pad2RoundTrip(sec % 60);
    ParseNatToString(sec / 60);
    var text := m + ":" + ss + RemainingSuffix;
    assert Countdown(Some(at), now) == text;
    var body := m + ":" + ss;
    assert text[|text| - |RemainingSuffix|..] == RemainingSuffix;
    assert text[..|text| - |RemainingSuffix|] == body;
    assert body[..|body| - 3] == m && body[|body| - 2..] == ss && body[|body| - 3] == ':';
  }

  // ---------------------------------------------------------------------------------------------
  // The console's state

  /** The fields of a listed request the console logic reads. */
  datatype ReqView = ReqView(id: int, status: string, exitCode: Option<string>)

  /** What fetch of /api/requests came back with. */
  datatype Fetched = Unauthorized | NotOk(text: string) | Body(requests: Option<seq<ReqView>>, nextCursor: Option<int>)

  /** What the PATCH of setStatus came back with. */
  datatype Patched = PatchUnauthorized | PatchFailed(text: string) | PatchOk

  /** How load ended: the list shown, a redirect to the login page, or an error thrown with the response text. */
  datatype Loaded = Shown | ToLogin | Threw(message: string)

  /** One entry of the snapshot kept in prevReqsRef. */
  datatype Seen = Seen(id: int, status: string)

  /** A browser notification raised by the console. */
  datatype Notice = NewRequest(id: int, exitCode: Option<string>) | CarReady(id: int, exitCode: Option<string>)

  /** The list as the next render sees it: the new page after the old list when appending, the page alone otherwise. */
  function Merged(prev: seq<ReqView>, page: seq<ReqView>, append: bool): (r: seq<ReqView>)
    ensures append ==> |r| == |prev| + |page| && r[..|prev|] == prev && r[|prev|..] == page
    ensures !append ==> r == page
  {
    if append then prev + page else page
  }

  /** reqs.map((r) => ({ id: r.id, status: r.status })). */
  function SnapshotOf(reqs: seq<ReqView>): (r: seq<Seen>)
    ensures |r| == |reqs| && forall i :: 0 <= i < |r| ==> r[i] == Seen(reqs[i].id, reqs[i].status)
  {
    seq(|reqs|, i requires 0 <= i < |reqs| => Seen(reqs[i].id, reqs[i].status))
  }

  /** new Set(prev.map((p) => p.id)). */
  function IdsOf(prev: seq<Seen>): set<int> {
    set p | p in prev :: p.id
  }

  /** new Map(prev.map((p) => [p.id, p.status])).get(id): the status of the last entry with that id. */
  function StatusIn(prev: seq<Seen>, id: int): (r: Option<string>)
    ensures r.Some? <==> id in IdsOf(prev)
  {
    if prev == [] then None
    else if prev[|prev| - 1].id == id then Some(prev[|prev| - 1].status)
    else
      var r := StatusIn(prev[..|prev| - 1], id);
      assert prev == prev[..|prev| - 1] + [prev[|prev| - 1]];
      r
  }

  /** The notification one listed request raises against the snapshot, if any. */
  function NoticeFor(prev: seq<Seen>, r: ReqView): seq<Notice> {
    if r.id !in IdsOf(prev) then [NewRequest(r.id, r.exitCode)]
    else if StatusIn(prev, r.id) != Some("READY") && r.status == "READY" then [CarReady(r.id, r.exitCode)]
    else []
  }

  /** The notifications of one pass over the list, in list order. */
  function Notices(prev: seq<Seen>, reqs: seq<ReqView>): seq<Notice> {
    if reqs == [] then [] else Notices(prev, reqs[..|reqs| - 1]) + NoticeFor(prev, reqs[|reqs| - 1])
  }

  /** Some listed request has this id and exit code. */
  predicate Lists(reqs: seq<ReqView>, id: int, c: Option<string>) {
    exists i :: 0 <= i < |reqs| && reqs[i] == ReqView(id, reqs[i].status, c)
  }

  /** Some listed request with this id and exit code is READY. */
  predicate ListsReady(reqs: seq<ReqView>, id: int, c: Option<string>) {
    exists i :: 0 <= i < |reqs| && reqs[i] == ReqView(id, "READY", c)
  }

  lemma ListsSnoc(reqs: seq<ReqView>, id: int, c: Option<string>)
    requires reqs != []
    ensures Lists(reqs, id, c) <==> Lists(reqs[..|reqs| - 1], id, c) || (reqs[|reqs| - 1].id == id && reqs[|reqs| - 1].exitCode == c)
    ensures ListsReady(reqs, id, c) <==> ListsReady(reqs[..|reqs| - 1], id, c) || reqs[|reqs| - 1] == ReqView(id, "READY", c)
  {
    var n := |reqs| - 1;
    if Lists(reqs, id, c) {
      var i :| 0 <= i < |reqs| && reqs[i] == ReqView(id, reqs[i].status, c);
      if i < n {
        assert reqs[..n][i] == reqs[i];
      }
    }
    if ListsReady(reqs, id, c) {
      var i :| 0 <= i < |reqs| && reqs[i] == ReqView(id, "READY", c);
      if i < n {
        assert reqs[..n][i] == reqs[i];
      }
    }
    if Lists(reqs[..n], id, c) {
      var i :| 0 <= i < n && reqs[..n][i] == ReqView(id, reqs[..n][i].status, c);
      assert reqs[i] == reqs[..n][i];
    }
    if ListsReady(reqs[..n], id, c) {
      var i :| 0 <= i < n && reqs[..n][i] == ReqView(id, "READY", c);
      assert reqs[i] == reqs[..n][i];
    }
  }

  /**
   * "New request" is raised exactly for listed ids missing from the snapshot, and "Car ready"
   * exactly for listed requests now READY whose snapshot status was something else.
   */
  lemma {:induction false} NoticesMembers(prev: seq<Seen>, reqs: seq<ReqView>)
    ensures forall id, c :: NewRequest(id, c) in Notices(prev, reqs) <==> id !in IdsOf(prev) && Lists(reqs, id, c)
    ensures forall id, c :: CarReady(id, c) in Notices(prev, reqs) <==>
      id in IdsOf(prev) && StatusIn(prev, id) != Some("READY") && ListsReady(reqs, id, c)
  {
    if reqs != [] {
      NoticesMembers(prev, reqs[..|reqs| - 1]);
      forall id, c {
        ListsSnoc(reqs, id, c);
      }
    }
  }

  predicate DistinctIds(reqs: seq<ReqView>) {
    forall i, j :: 0 <= i < j < |reqs| ==> reqs[i].id != reqs[j].id
  }

  /** Against the snapshot of the same list (ids distinct, as the API returns them) nothing is raised. */
  lemma {:induction false} QuietAgainstOwnSnapshot(reqs: seq<ReqView>, part: seq<ReqView>)
    requires DistinctIds(reqs) && |part| <= |reqs| && part == reqs[..|part|]
    ensures Notices(SnapshotOf(reqs), part) == []
  {
    if part != [] {
      var n := |part| - 1;
      assert part[..n] == reqs[..n];
      QuietAgainstOwnSnapshot(reqs, part[..n]);
      var snap := SnapshotOf(reqs);
      assert snap[n] == Seen(reqs[n].id, reqs[n].status);
      assert reqs[n].id in IdsOf(snap);
      LastWithId(snap, n);
    }
  }

  /** In a snapshot whose ids are distinct, the status found for an entry's id is that entry's. */
  lemma LastWithId(snap: seq<Seen>, n: nat)
    requires n < |snap| && forall i, j :: 0 <= i < j < |snap| ==> snap[i].id != snap[j].id
    ensures StatusIn(snap, snap[n].id) == Some(snap[n].status)
    decreases |snap|
  {
    var m := |snap| - 1;
    if n < m {
      LastWithId(snap[..m], n);
    }
  }

  /** One more request of the pass adds its own notice. */
  lemma NoticesStep(prev: seq<Seen>, reqs: seq<ReqView>, i: nat)
    requires i < |reqs|
    ensures Notices(prev, reqs[..i + 1]) == Notices(prev, reqs[..i]) + NoticeFor(prev, reqs[i])
  {
    assert reqs[..i + 1][..i] == reqs[..i];
  }

  /** The console: the shown list, the next-page cursor, the error line, the snapshot and the notifications raised. */
  class Console {
    var reqs: seq<ReqView>
    var nextCursor: Option<int>
    var err: string
    var snapshot: seq<Seen>
    var shown: seq<Notice>

    constructor ()
      ensures reqs == [] && nextCursor == None && err == "" && snapshot == [] && shown == []
    {
      reqs, nextCursor, err, snapshot, shown := [], None, "", [], [];
    }

    /**
     * load: clears the error, then on a good response shows the page (after the current list when
     * appending) and takes next_cursor from it; a 401 sends to the login page and any other
     * failure throws with the response text, both leaving the list as it was.
     */
    method Load(fetched: Fetched, append: bool) returns (r: Loaded)
      modifies this
      ensures err == "" && snapshot == old(snapshot) && shown == old(shown)
      ensures fetched.Body? ==>
        r == Shown && reqs == Merged(old(reqs), fetched.requests.GetOr([]), append) && nextCursor == fetched.nextCursor
      ensures fetched.Unauthorized? ==> r == ToLogin && reqs == old(reqs) && nextCursor == old(nextCursor)
      ensures fetched.NotOk? ==> r == Threw(fetched.text) && reqs == old(reqs) && nextCursor == old(nextCursor)
    {
      err := "";
      match fetched
      case Unauthorized => return ToLogin;
      case NotOk(text) => return Threw(text);
      case Body(list, cursor) =>
        reqs := if append then reqs + list.GetOr([]) else list.GetOr([]);
        nextCursor := cursor;
        return Shown;
    }

    /**
     * setStatus: a 401 sends to the login page and any other failure throws with the response
     * text, both before anything is reloaded or the error line cleared; a change the backend took
     * reloads the first page through load, which clears the error line and either replaces the
     * list and the cursor or fails as load does.
     */
    method SetStatus(patched: Patched, reloaded: Fetched) returns (r: Loaded)
      modifies this
      ensures snapshot == old(snapshot) && shown == old(shown)
      ensures !patched.PatchOk? ==> reqs == old(reqs) && nextCursor == old(nextCursor) && err == old(err)
      ensures patched.PatchUnauthorized? ==> r == ToLogin
      ensures patched.PatchFailed? ==> r == Threw(patched.text)
      ensures patched.PatchOk? ==> err == ""
      ensures patched.PatchOk? && reloaded.Body? ==>
        r == Shown && reqs == reloaded.requests.GetOr([]) && nextCursor == reloaded.nextCursor
      ensures patched.PatchOk? && !reloaded.Body? ==> reqs == old(reqs) && nextCursor == old(nextCursor)
      ensures patched.PatchOk? && reloaded.Unauthorized? ==> r == ToLogin
      ensures patched.PatchOk? && reloaded.NotOk? ==> r == Threw(reloaded.text)
    {
      match patched
      case PatchUnauthorized => return ToLogin;
      case PatchFailed(text) => return Threw(text);
      case PatchOk =>
        r := Load(reloaded, false);
    }

    /**
     * The notification effect: with a non-empty list in a browser that has notifications, raise
     * a notice per new request or car turned READY when a snapshot exists and notifications are
     * on and granted, then replace the snapshot. With an empty list it returns at once and the
     * snapshot is kept.
     */
    method NotifyChanges(supported: bool, enabled: bool, granted: bool)
      modifies this
      ensures reqs == old(reqs) && nextCursor == old(nextCursor) && err == old(err)
      ensures old(reqs) == [] || !supported ==> snapshot == old(snapshot) && shown == old(shown)
      ensures old(reqs) != [] && supported ==> snapshot == SnapshotOf(reqs)
      ensures old(reqs) != [] && supported ==>
        shown == old(shown) + (if |old(snapshot)| > 0 && enabled && granted then Notices(old(snapshot), reqs) else [])
    {
      if reqs == [] || !supported {
        return;
      }
      var prev := snapshot;
      var current := SnapshotOf(reqs);
      if |prev| > 0 && enabled && granted {
        RaiseNotices(prev);
      }
      snapshot := current;
    }

    /** The effect's loop over the list: one notice per request that is new or newly READY against prev. */
    method RaiseNotices(prev: seq<Seen>)
      modifies this
      ensures reqs == old(reqs) && nextCursor == old(nextCursor) && err == old(err) && snapshot == old(snapshot)
      ensures shown == old(shown) + Notices(prev, reqs)
    {
      var prevIds := set p | p in prev :: p.id;
      var i := 0;
      while i < |reqs|
        invariant 0 <= i <= |reqs|
        invariant reqs == old(reqs) && nextCursor == old(nextCursor) && err == old(err) && snapshot == old(snapshot)
        invariant shown == old(shown) + Notices(prev, reqs[..i])
      {
        var r := reqs[i];
        if r.id !in prevIds {
          shown := shown + [NewRequest(r.id, r.exitCode)];
        } else if StatusIn(prev, r.id) != Some("READY") && r.status == "READY" {
          shown := shown + [CarReady(r.id, r.exitCode)];
        }
        NoticesStep(prev, reqs, i);
        i := i + 1;
      }
      assert reqs[..i] == reqs;
    }
  }
}
