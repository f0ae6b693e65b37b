/**
 * The public claim flow of backend/app/routes/claim.py: a per-address sliding-window rate
 * limit in front of both endpoints, claim_start's venue and phone checks, and claim_confirm's
 * ladder (invalid code, expired, claimed by another number) before it binds the phone to the
 * ticket. Times are whole seconds.
 */
module Claim {
  import opened Wrappers
  import opened Text
  import opened Models
  import opened Database

  // ---------------------------------------------------------------------------------------------
  // _rate_limit

  /** _RATE_WINDOW, five minutes. */
  const RateWindow: int := 300
  /** _RATE_MAX_ATTEMPTS. */
  const RateMaxAttempts: nat := 15

  /** request.remote_addr or "unknown". */
  function RateKey(remoteAddr: Option<string>): (k: string)
    ensures k != []
  {
    if remoteAddr.Some? && remoteAddr.value != [] then remoteAddr.value else "unknown"
  }

  /** The attempts recorded for a key; the defaultdict starts every key at the empty list. */
  function Listed(attempts: map<string, seq<int>>, key: string): seq<int> {
    if key in attempts then attempts[key] else []
  }

  /** [t for t in ts if t > cutoff]. */
  function Recent(ts: seq<int>, cutoff: int): (r: seq<int>)
    ensures |r| <= |ts|
  {
    if ts == [] then []
    else (if ts[0] > cutoff then [ts[0]] else []) + Recent(ts[1..], cutoff)
  }

  /** Recent keeps exactly the timestamps after the cutoff. */
  lemma {:induction false} RecentMembers(ts: seq<int>, cutoff: int)
    ensures forall t :: t in Recent(ts, cutoff) <==> t in ts && t > cutoff
  {
    if ts != [] {
      RecentMembers(ts[1..], cutoff);
      assert ts == [ts[0]] + ts[1..];
    }
  }

  /** Filtering a concatenation filters each part. */
  lemma {:induction false} RecentAppend(a: seq<int>, b: seq<int>, cutoff: int)
    ensures Recent(a + b, cutoff) == Recent(a, cutoff) + Recent(b, cutoff)
  {
    if a == [] {
      assert a + b == b;
    } else {
      var head := if a[0] > cutoff then [a[0]] else [];
      assert (a + b)[0] == a[0] && (a + b)[1..] == a[1..] + b;
      RecentAppend(a[1..], b, cutoff);
      calc {
        Recent(a + b, cutoff);
        head + Recent(a[1..] + b, cutoff);
        head + (Recent(a[1..], cutoff) + Recent(b, cutoff));
        (head + Recent(a[1..], cutoff)) + Recent(b, cutoff);
        Recent(a, cutoff) + Recent(b, cutoff);
      }
    }
  }

  /** Pruning with a cutoff and then with a later one is pruning with the later one. */
  lemma {:induction false} RecentTwice(ts: seq<int>, c1: int, c2: int)
    requires c1 <= c2
    ensures Recent(Recent(ts, c1), c2) == Recent(ts, c2)
  {
    if ts != [] {
      RecentTwice(ts[1..], c1, c2);
      var head := if ts[0] > c1 then [ts[0]] else [];
      RecentAppend(head, Recent(ts[1..], c1), c2);
    }
  }

  /** What one call of _rate_limit does to its key's list: whether it passes, and the list it leaves. */
  datatype Admission = Admission(allowed: bool, kept: seq<int>)

  /**
   * _rate_limit on one key: the list is pruned to the last five minutes whatever happens; with
   * fewer than 15 left the call passes and now is appended, otherwise it is refused (429) and
   * nothing is appended.
   */
  function Admit(ts: seq<int>, now: int): (r: Admission)
    ensures r.allowed ==> 0 < |r.kept| <= RateMaxAttempts && r.kept[|r.kept| - 1] == now
    ensures !r.allowed ==> RateMaxAttempts <= |r.kept| <= |ts|
    ensures forall t :: t in r.kept ==> now - RateWindow < t
  {
    var kept := Recent(ts, now - RateWindow);
    RecentMembers(ts, now - RateWindow);
    if |kept| >= RateMaxAttempts then Admission(false, kept)
    else Admission(true, kept + [now])
  }

  /** A call passes exactly when fewer than 15 of the key's attempts fall in the last five minutes. */
  lemma AdmitIff(ts: seq<int>, now: int)
    ensures Admit(ts, now).allowed <==> |Recent(ts, now - RateWindow)| < RateMaxAttempts
    ensures Admit(ts, now).kept[..|Recent(ts, now - RateWindow)|] == Recent(ts, now - RateWindow)
  {
  }

  /** A refused call records nothing, so an immediate retry is refused again with the same list. */
  lemma {:induction false} RefusalIsStable(ts: seq<int>, now: int)
    requires !Admit(ts, now).allowed
    ensures Admit(Admit(ts, now).kept, now) == Admit(ts, now)
  {
    RecentTwice(ts, now - RateWindow, now - RateWindow);
  }

  /** Fifteen attempts inside the window block the next one. */
  lemma {:induction false} FullWindowRefuses(ts: seq<int>, now: int)
    requires |ts| == RateMaxAttempts && forall i :: 0 <= i < |ts| ==> now - RateWindow < ts[i]
    ensures !Admit(ts, now).allowed
  {
    RecentKeepsAll(ts, now - RateWindow);
  }

  lemma {:induction false} RecentKeepsAll(ts: seq<int>, cutoff: int)
    requires forall i :: 0 <= i < |ts| ==> cutoff < ts[i]
    ensures Recent(ts, cutoff) == ts
  {
    if ts != [] {
      RecentKeepsAll(ts[1..], cutoff);
      assert ts == [ts[0]] + ts[1..];
    }
  }

  /** The module-level _attempts dict: remote address to the timestamps of its recent attempts. */
  class RateLimiter {
    var attempts: map<string, seq<int>>

    /** No key's list is ever longer than the limit. */
    predicate Bounded()
      reads this
    {
      forall key :: key in attempts ==> |attempts[key]| <= RateMaxAttempts
    }

    constructor ()
      ensures attempts == map[] && Bounded()
    {
      attempts := map[];
    }

    /**
     * _rate_limit: the caller's list is pruned in place, then either the call is refused or now is
     * appended. No other key's list changes, and no list grows past the limit.
     */
    method Check(remoteAddr: Option<string>, now: int) returns (allowed: bool)
      modifies this
      ensures var key := RateKey(remoteAddr);
        var a := Admit(Listed(old(attempts), key), now);
        allowed == a.allowed && attempts == old(attempts)[key := a.kept]
      ensures old(Bounded()) ==> Bounded()
    {
      var key := RateKey(remoteAddr);
      var ts := if key in attempts then attempts[key] else [];
      attempts := attempts[key := Recent(ts, now - RateWindow)];
      if |attempts[key]| >= RateMaxAttempts {
        return false;
      }
      attempts := attempts[key := attempts[key] + [now]];
      allowed := true;
    }
  }

  /** One key's list after a run of calls from an empty start. */
  function ListAfter(times: seq<int>): (r: seq<int>)
    ensures |r| <= RateMaxAttempts
  {
    if times == [] then []
    else Admit(ListAfter(times[..|times| - 1]), times[|times| - 1]).kept
  }

  /** The calls of that run that passed, in order. */
  function PassedOf(times: seq<int>): seq<int> {
    if times == [] then []
    else
      var init := times[..|times| - 1];
      var t := times[|times| - 1];
      if Admit(ListAfter(init), t).allowed then PassedOf(init) + [t] else PassedOf(init)
  }

  predicate Nondecreasing(times: seq<int>) {
    forall i, j :: 0 <= i <= j < |times| ==> times[i] <= times[j]
  }

  /** With the clock moving forward, the list is exactly the passed calls of the last five minutes. */
  lemma {:induction false} ListIsRecentPassed(times: seq<int>)
    requires times != [] && Nondecreasing(times)
    ensures ListAfter(times) == Recent(PassedOf(times), times[|times| - 1] - RateWindow)
  {
    var init := times[..|times| - 1];
    var t := times[|times| - 1];
    var p0 := PassedOf(init);
    if init != [] {
      InitNondecreasing(times);
      ListIsRecentPassed(init);
      RecentTwice(p0, init[|init| - 1] - RateWindow, t - RateWindow);
    }
    AdmitStep(ListAfter(init), p0, t);
  }

  lemma InitNondecreasing(times: seq<int>)
    requires |times| >= 2 && Nondecreasing(times)
    ensures Nondecreasing(times[..|times| - 1]) && times[..|times| - 1][|times| - 2] <= times[|times| - 1]
  {
  }

  /** One more call: if the list is the passed calls' recent part, it stays so with the call's own time. */
  lemma AdmitStep(l0: seq<int>, p0: seq<int>, t: int)
    requires Recent(l0, t - RateWindow) == Recent(p0, t - RateWindow)
    ensures var a := Admit(l0, t);
      a.kept == Recent(if a.allowed then p0 + [t] else p0, t - RateWindow)
  {
    var c := t - RateWindow;
    assert Recent([t], c) == [t];
    RecentAppend(p0, [t], c);
  }

  /**
   * The sliding window holds: with the clock moving forward, at any call at most 15 of the calls
   * that passed fall in the five minutes before it.
   */
  lemma WindowHoldsAtMostFifteen(times: seq<int>)
    requires times != [] && Nondecreasing(times)
    ensures |Recent(PassedOf(times), times[|times| - 1] - RateWindow)| <= RateMaxAttempts
  {
    ListIsRecentPassed(times);
  }

  // ---------------------------------------------------------------------------------------------
  // claim_start

  /** (data.get(field) or "").strip() for a string field that may be absent. */
  function Field(v: Option<string>): string {
    Strip(v.GetOr(""))
  }

  /** claim_start after the rate limit: the venue must exist (404), then a phone is required (400). */
  function ClaimStart(db: Db, slug: string, phone: Option<string>): (r: Response<()>)
    ensures r.Ok? <==> VenueWithSlug(db.venues, slug).Some? && Field(phone) != []
    ensures VenueWithSlug(db.venues, slug).None? ==> r == Fail(404, "venue not found")
    ensures r.Fail? ==> r.code in {400, 404}
  {
    if VenueWithSlug(db.venues, slug).None? then Fail(404, "venue not found")
    else if Field(phone) == [] then Fail(400, "phone is required")
    else Ok(())
  }

  // ---------------------------------------------------------------------------------------------
  // claim_confirm

  /** The refusals claim_confirm answers with a JSON error and status 400. */
  datatype ClaimError = InvalidCode | Expired | AlreadyClaimed

  function ErrorName(e: ClaimError): string {
    match e
    case InvalidCode => "invalid_code"
    case Expired => "expired"
    case AlreadyClaimed => "already_claimed"
  }

  /** The JSON claim_confirm answers with on success. */
  datatype Claimed = Claimed(ticketToken: string, guestPath: string, maskedVehicle: Option<string>)

  /** A ticket of the venue issued this claim code. */
  predicate HasCode(tk: Ticket, venueId: int, code: string) {
    tk.venueId == venueId && tk.claimCode == Some(code)
  }

  /** filter_by(venue_id, claim_code).order_by(id desc).first(): the last matching row. */
  function LatestWithCode(ts: seq<Ticket>, venueId: int, code: string): (r: Option<nat>)
    ensures r.Some? ==> r.value < |ts| && HasCode(ts[r.value], venueId, code)
    ensures r.Some? ==> forall k :: r.value < k < |ts| ==> !HasCode(ts[k], venueId, code)
    ensures r.None? ==> forall k :: 0 <= k < |ts| ==> !HasCode(ts[k], venueId, code)
  {
    if ts == [] then None
    else if HasCode(ts[|ts| - 1], venueId, code) then Some(|ts| - 1)
    else LatestWithCode(ts[..|ts| - 1], venueId, code)
  }

  /** The code has an expiry and now is past it; a ticket without an expiry never expires. */
  predicate CodeExpired(tk: Ticket, now: int) {
    tk.claimCodeExpiresAt.Some? && now > tk.claimCodeExpiresAt.value
  }

  /** The ticket was claimed, and not by this phone. */
  predicate ClaimedByOther(tk: Ticket, phone: string) {
    tk.claimedAt.Some? && tk.claimedPhone != Some(phone)
  }

  /**
   * The checks of claim_confirm after the rate limit, in its order: phone and code given (400),
   * the venue exists (404), a ticket has the code, its code has not expired, and it is not
   * claimed by another number. On success the ticket's position.
   */
  function ConfirmCheck(db: Db, slug: string, phone: Option<string>, code: Option<string>, now: int): (r: Response<nat>)
    ensures r.Ok? ==> Field(phone) != [] && Field(code) != []
    ensures r.Ok? ==> var v := VenueWithSlug(db.venues, slug);
      && v.Some?
      && LatestWithCode(db.tickets, db.venues[v.value].id, Field(code)) == Some(r.value)
    ensures r.Ok? ==> !CodeExpired(db.tickets[r.value], now) && !ClaimedByOther(db.tickets[r.value], Field(phone))
    ensures r.Fail? ==> r.code in {400, 404}
  {
    var p := Field(phone);
    var c := Field(code);
    if p == [] || c == [] then Fail(400, "phone and claim_code are required")
    else
      match VenueWithSlug(db.venues, slug)
      case None => Fail(404, "venue not found")
      case Some(v) =>
        match LatestWithCode(db.tickets, db.venues[v].id, c)
        case None => Fail(400, ErrorName(InvalidCode))
        case Some(k) =>
          var tk := db.tickets[k];
          if CodeExpired(tk, now) then Fail(400, ErrorName(Expired))
          else if ClaimedByOther(tk, p) then Fail(400, ErrorName(AlreadyClaimed))
          else Ok(k)
  }

  /** The bullet claim_confirm masks the plate with. */
  const Bullet: char := '\U{2022}'

  /** masked_vehicle: four bullets and the last four characters of car_number, when it has at least four. */
  function MaskedVehicle(carNumber: Option<string>): (r: Option<string>)
    ensures r.Some? <==> carNumber.Some? && |carNumber.value| >= 4
    ensures r.Some? ==> var c := carNumber.value;
      && |r.value| == 8
      && (forall i :: 0 <= i < 4 ==> r.value[i] == Bullet)
      && r.value[4..] == c[|c| - 4..]
  {
    if carNumber.Some? && |carNumber.value| >= 4 then
      Some([Bullet, Bullet, Bullet, Bullet] + carNumber.value[|carNumber.value| - 4..])
    else None
  }

  /** claim_confirm after the rate limit: binds the phone to the ticket (claimed_at = now) and returns its guest path. */
  function Confirm(db: Db, slug: string, phone: Option<string>, code: Option<string>, now: int): (r: Step<Claimed>)
    ensures r.resp.Fail? ==> r.db == db
  {
    match ConfirmCheck(db, slug, phone, code, now)
    case Fail(c, m) => Step(db, Fail(c, m))
    case Ok(k) =>
      var tk := db.tickets[k];
      var bound := tk.(claimedPhone := Some(Field(phone)), claimedAt := Some(now));
      Step(db.(tickets := db.tickets[k := bound]),
           Ok(Claimed(tk.token, "/t/" + tk.token, MaskedVehicle(tk.carNumber))))
  }

  /**
   * The ladder in its order: no ticket with the code gives invalid_code; a found ticket whose code
   * has expired gives expired even when another number claimed it; otherwise a ticket claimed by
   * another number gives already_claimed.
   */
  lemma ConfirmLadder(db: Db, slug: string, phone: Option<string>, code: Option<string>, now: int, v: nat)
    requires Field(phone) != [] && Field(code) != []
    requires VenueWithSlug(db.venues, slug) == Some(v)
    ensures var found := LatestWithCode(db.tickets, db.venues[v].id, Field(code));
      var r := ConfirmCheck(db, slug, phone, code, now);
      && (found.None? <==> r == Fail(400, "invalid_code"))
      && (found.Some? && CodeExpired(db.tickets[found.value], now) <==> r == Fail(400, "expired"))
      && (found.Some? && !CodeExpired(db.tickets[found.value], now) && ClaimedByOther(db.tickets[found.value], Field(phone))
          <==> r == Fail(400, "already_claimed"))
  {
  }

  /**
   * A successful confirm changes only the found ticket, and there only the claimed phone and
   * time; the reply carries that ticket's token and the guest path "/t/" + token.
   */
  lemma ConfirmEffect(db: Db, slug: string, phone: Option<string>, code: Option<string>, now: int, k: nat)
    requires Valid(db) && ConfirmCheck(db, slug, phone, code, now) == Ok(k)
    ensures var r := Confirm(db, slug, phone, code, now);
      && Valid(r.db)
      && r.db == db.(tickets := r.db.tickets)
      && |r.db.tickets| == |db.tickets|
      && (forall i :: 0 <= i < |db.tickets| && i != k ==> r.db.tickets[i] == db.tickets[i])
      && r.db.tickets[k] == db.tickets[k].(claimedPhone := Some(Field(phone)), claimedAt := Some(now))
      && r.resp == Ok(Claimed(db.tickets[k].token, "/t/" + db.tickets[k].token, MaskedVehicle(db.tickets[k].carNumber)))
  {
  }

  /** Binding a phone changes no field the lookup reads, so the same code finds the same ticket afterwards. */
  lemma {:induction false} BindKeepsLookup(ts: seq<Ticket>, k: nat, tk: Ticket, venueId: int, code: string)
    requires k < |ts| && tk.venueId == ts[k].venueId && tk.claimCode == ts[k].claimCode
    ensures LatestWithCode(ts[k := tk], venueId, code) == LatestWithCode(ts, venueId, code)
  {
    if ts != [] {
      var n := |ts| - 1;
      if k < n {
        assert ts[k := tk][..n] == ts[..n][k := tk];
        BindKeepsLookup(ts[..n], k, tk, venueId, code);
      } else {
        assert ts[k := tk][..n] == ts[..n];
      }
    }
  }

  /**
   * Confirming again with the same phone while the code is still valid succeeds again with the
   * same reply, and only moves claimed_at to the new time.
   */
  lemma SamePhoneReconfirms(db: Db, slug: string, phone: Option<string>, code: Option<string>, now1: int, now2: int, k: nat)
    requires Valid(db) && ConfirmCheck(db, slug, phone, code, now1) == Ok(k)
    requires !CodeExpired(db.tickets[k], now2)
    ensures var first := Confirm(db, slug, phone, code, now1);
      var second := Confirm(first.db, slug, phone, code, now2);
      && second.resp == first.resp
      && second.db == first.db.(tickets := first.db.tickets[k := first.db.tickets[k].(claimedAt := Some(now2))])
  {
    var tk := db.tickets[k];
    var bound := tk.(claimedPhone := Some(Field(phone)), claimedAt := Some(now1));
    BindKeepsLookup(db.tickets, k, bound, db.venues[VenueWithSlug(db.venues, slug).value].id, Field(code));
    assert ConfirmCheck(db.(tickets := db.tickets[k := bound]), slug, phone, code, now2) == Ok(k);
  }

  /** Once bound, a different phone is refused with already_claimed while the code is valid, and nothing changes. */
  lemma OtherPhoneRefused(db: Db, slug: string, phone: Option<string>, other: Option<string>, code: Option<string>,
                          now1: int, now2: int, k: nat)
    requires Valid(db) && ConfirmCheck(db, slug, phone, code, now1) == Ok(k)
    requires Field(other) != [] && Field(other) != Field(phone)
    requires !CodeExpired(db.tickets[k], now2)
    ensures var first := Confirm(db, slug, phone, code, now1);
      Confirm(first.db, slug, other, code, now2) == Step(first.db, Fail(400, "already_claimed"))
  {
    var tk := db.tickets[k];
    var bound := tk.(claimedPhone := Some(Field(phone)), claimedAt := Some(now1));
    var v := VenueWithSlug(db.venues, slug).value;
    BindKeepsLookup(db.tickets, k, bound, db.venues[v].id, Field(code));
    RefusedWhenClaimedByOther(Confirm(db, slug, phone, code, now1).db, slug, other, code, now2, v, k);
  }

  /** The already_claimed rung on its own: the found ticket is valid but bound to another number. */
  lemma RefusedWhenClaimedByOther(d: Db, slug: string, phone: Option<string>, code: Option<string>, now: int, v: nat, k: nat)
    requires Field(phone) != [] && Field(code) != [] && VenueWithSlug(d.venues, slug) == Some(v)
    requires LatestWithCode(d.tickets, d.venues[v].id, Field(code)) == Some(k)
    requires !CodeExpired(d.tickets[k], now) && ClaimedByOther(d.tickets[k], Field(phone))
    ensures Confirm(d, slug, phone, code, now) == Step(d, Fail(400, "already_claimed"))
  {
  }
}
