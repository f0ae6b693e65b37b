/**
 * The staff request list of backend/app/routes/core.py (list_requests): the active or history
 * scope, the optional venue, status and exit filters, and keyset pagination by descending id with
 * a cursor and a clamped page size.
 */
module Paging {
  import opened Wrappers
  import opened Text
  import opened Models
  import opened Transitions
  import opened Database

  const DefaultLimit: int := 50
  const MaxLimit: int := 100

  /** The two list scopes: ACTIVE_STATUSES and HISTORY_STATUSES_LIST. */
  datatype Scope = ActiveScope | HistoryScope

  /** The query string; an absent parameter, or an integer one that does not parse, is None. */
  datatype ListQuery = ListQuery(venueId: Option<int>, status: Option<string>, exitId: Option<int>,
                                 scope: Option<string>, limit: Option<int>, cursor: Option<int>)

  /** The answer: the page of requests and the cursor for the next page, if any. */
  datatype Page = Page(requests: seq<Request>, nextCursor: Option<int>)

  /** min(max(1, limit), 100), with 50 when the parameter is missing. */
  function ClampLimit(limit: Option<int>): (r: int)
    ensures 1 <= r <= MaxLimit
    ensures limit.None? ==> r == DefaultLimit
    ensures limit.Some? && 1 <= limit.value <= MaxLimit ==> r == limit.value
    ensures limit.Some? && limit.value < 1 ==> r == 1
    ensures limit.Some? && limit.value > MaxLimit ==> r == MaxLimit
  {
    var l := limit.GetOr(DefaultLimit);
    var atLeastOne := if l < 1 then 1 else l;
    if atLeastOne > MaxLimit then MaxLimit else atLeastOne
  }

  /**
   * (scope or "active").strip().lower(), accepted only when it is "active" or "history"; a missing
   * or empty parameter is the default "active", which strip and lower leave as it is.
   */
  function ParseScope(scope: Option<string>): (r: Option<Scope>)
  {
    match scope
    case None => Some(ActiveScope)
    case Some(v) => if v == [] then Some(ActiveScope) else ScopeNamed(Lower(Strip(v)))
  }

  /** The scope a normalised name selects, if any. */
  function ScopeNamed(s: string): Option<Scope> {
    if s == "active" then Some(ActiveScope)
    else if s == "history" then Some(HistoryScope)
    else None
  }

  /** A missing or empty scope means the active list; the two scope names select their lists. */
  lemma ScopeNames(w: string)
    ensures ParseScope(None) == Some(ActiveScope) && ParseScope(Some([])) == Some(ActiveScope)
    ensures w == "active" ==> ParseScope(Some(w)) == Some(ActiveScope)
    ensures w == "history" ==> ParseScope(Some(w)) == Some(HistoryScope)
  {
    if w == "active" || w == "history" {
      ParseScopeWord(w);
      assert w == "history" ==> w != "active" by {
        if w == "history" {
          assert |w| == 7;
        }
      }
    }
  }

  /** A scope given as a word of lower-case letters is accepted exactly when it is one of the two names. */
  lemma ParseScopeWord(w: string)
    requires w != [] && forall k :: 0 <= k < |w| ==> 'a' <= w[k] <= 'z'
    ensures ParseScope(Some(w)) == ScopeNamed(w)
  {
    ScopeWordFixed(w);
  }

  /** A word of lower-case letters normalises to itself. */
  lemma ScopeWordFixed(w: string)
    requires w != [] && forall k :: 0 <= k < |w| ==> 'a' <= w[k] <= 'z'
    ensures Lower(Strip(w)) == w
  {
    StripFixpoint(w);
    LowerFixpoint(w);
  }

  /** The filters the query builds, once the caller's role has fixed the venue. */
  datatype Filter = Filter(venueId: Option<int>, status: Option<string>, exitId: Option<int>, scope: Scope)

  /** Whether a request passes the filters; a filter whose value is falsy is not applied. */
  predicate Keeps(tickets: seq<Ticket>, f: Filter, r: Request) {
    && (Truthy(f.venueId) ==> 1 <= r.ticketId <= |tickets| && tickets[r.ticketId - 1].venueId == f.venueId.value)
    && (f.status.Some? && f.status.value != [] ==> StatusName(r.status) == f.status.value)
    && (Truthy(f.exitId) ==> r.exitId == f.exitId.value)
    && (f.scope == ActiveScope ==> IsActive(r.status))
    && (f.scope == HistoryScope ==> IsHistory(r.status))
  }

  predicate StrictlyDesc(ms: seq<Request>) {
    forall i, j :: 0 <= i < j < |ms| ==> ms[i].id > ms[j].id
  }

  /** Every request passing the filters, newest first (ORDER BY id DESC). */
  function MatchDesc(tickets: seq<Ticket>, rs: seq<Request>, f: Filter): (r: seq<Request>)
    requires RequestIds(rs)
    ensures StrictlyDesc(r)
    ensures forall i :: 0 <= i < |r| ==> 1 <= r[i].id <= |rs|
  {
    if rs == [] then []
    else
      var last := rs[|rs| - 1];
      (if Keeps(tickets, f, last) then [last] else []) + MatchDesc(tickets, rs[..|rs| - 1], f)
  }

  /** The newest-first list holds exactly the requests that pass the filters. */
  lemma {:induction false} MatchDescMembers(tickets: seq<Ticket>, rs: seq<Request>, f: Filter)
    requires RequestIds(rs)
    ensures forall x :: x in MatchDesc(tickets, rs, f) <==> x in rs && Keeps(tickets, f, x)
  {
    if rs != [] {
      var last := rs[|rs| - 1];
      var init := rs[..|rs| - 1];
      MatchDescMembers(tickets, init, f);
      assert rs == init + [last];
      var head := if Keeps(tickets, f, last) then [last] else [];
      assert MatchDesc(tickets, rs, f) == head + MatchDesc(tickets, init, f);
    }
  }

  /** The rows with id < c, in the order given (WHERE id < cursor). */
  function Below(ms: seq<Request>, c: int): (r: seq<Request>)
    ensures forall i :: 0 <= i < |r| ==> r[i].id < c
    ensures |r| <= |ms|
  {
    if ms == [] then [] else (if ms[0].id < c then [ms[0]] else []) + Below(ms[1..], c)
  }

  /** Everything the listing would show from the given cursor on, newest first. */
  function Listing(db: Db, f: Filter, cursor: Option<int>): (r: seq<Request>)
    requires Valid(db)
  {
    var all := MatchDesc(db.tickets, db.requests, f);
    if Truthy(cursor) then Below(all, cursor.value) else all
  }

  /** The filter list_requests builds: a valet's own venue (possibly none) replaces the venue parameter. */
  function FilterOf(user: User, q: ListQuery, scope: Scope): Filter {
    Filter(if user.role == Valet then user.venueId else q.venueId, q.status, q.exitId, scope)
  }

  /** The page cut from a listing: limit+1 rows fetched, limit shown, a cursor when there were more. */
  function Window(below: seq<Request>, limit: int): (p: Page)
    requires limit >= 1
  {
    var fetched := if |below| <= limit + 1 then below else below[..limit + 1];
    var hasMore := |fetched| > limit;
    var rows := if hasMore then fetched[..limit] else fetched;
    Page(rows, if rows != [] && hasMore then Some(rows[|rows| - 1].id) else None)
  }

  /**
   * A window shows the first min(limit, n) of the n rows, and its cursor is the last id shown
   * exactly when more rows remain.
   */
  lemma WindowShape(below: seq<Request>, limit: int)
    requires limit >= 1
    ensures var p := Window(below, limit);
      && |p.requests| == (if |below| < limit then |below| else limit)
      && p.requests == below[..|p.requests|]
      && (p.nextCursor.Some? <==> |below| > limit)
      && (p.nextCursor.Some? ==> p.nextCursor == Some(below[limit - 1].id))
  {
  }

  /** list_requests: the window of the listing selected by the query and the caller's role. */
  function ListRequests(db: Db, user: User, q: ListQuery): (r: Response<Page>)
    requires Valid(db)
    ensures r.Fail? <==> ParseScope(q.scope).None?
    ensures r.Fail? ==> r.code == 400
  {
    match ParseScope(q.scope)
    case None => Fail(400, "scope must be active or history")
    case Some(scope) => Ok(Window(Listing(db, FilterOf(user, q, scope), q.cursor), ClampLimit(q.limit)))
  }

  /** The listing is the filtered table newest first, cut at the cursor: a suffix of the whole filtered list. */
  lemma ListingShape(db: Db, f: Filter, cursor: Option<int>) returns (j: nat)
    requires Valid(db)
    ensures var all := MatchDesc(db.tickets, db.requests, f);
      && j <= |all| && Listing(db, f, cursor) == all[j..]
      && StrictlyDesc(Listing(db, f, cursor))
      && (forall x :: x in Listing(db, f, cursor) ==> x in db.requests && Keeps(db.tickets, f, x))
      && (Truthy(cursor) ==> forall x :: x in Listing(db, f, cursor) ==> x.id < cursor.value)
  {
    j := ListingSuffix(db, f, cursor);
    var all := MatchDesc(db.tickets, db.requests, f);
    SuffixFacts(all, j);
    MatchDescMembers(db.tickets, db.requests, f);
  }

  /** The listing is a suffix of the whole filtered list, newest first. */
  lemma ListingSuffix(db: Db, f: Filter, cursor: Option<int>) returns (j: nat)
    requires Valid(db)
    ensures var all := MatchDesc(db.tickets, db.requests, f);
      j <= |all| && Listing(db, f, cursor) == all[j..]
  {
    var all := MatchDesc(db.tickets, db.requests, f);
    j := 0;
    if Truthy(cursor) {
      j := BelowIsSuffix(all, cursor.value);
    }
  }

  /** A suffix of a newest-first list is newest first and holds only rows of the list. */
  lemma SuffixFacts(ms: seq<Request>, j: nat)
    requires StrictlyDesc(ms) && j <= |ms|
    ensures StrictlyDesc(ms[j..]) && forall x :: x in ms[j..] ==> x in ms
  {
    forall i, k | 0 <= i < k < |ms[j..]| ensures ms[j..][i].id > ms[j..][k].id {
      assert ms[j..][i] == ms[j + i] && ms[j..][k] == ms[j + k];
    }
  }

  /**
   * A page holds the newest min(limit, n) of the n rows the listing has below the cursor, all
   * passing the filters and with ids strictly below the cursor, in descending id order; the next
   * cursor is the last id shown exactly when more rows remain.
   */
  lemma PageShape(db: Db, user: User, q: ListQuery)
    requires Valid(db) && ListRequests(db, user, q).Ok?
    ensures var p := ListRequests(db, user, q).value;
      var f := FilterOf(user, q, ParseScope(q.scope).value);
      var below := Listing(db, f, q.cursor);
      var limit := ClampLimit(q.limit);
      && |p.requests| == (if |below| < limit then |below| else limit)
      && p.requests == below[..|p.requests|]
      && StrictlyDesc(p.requests)
      && (forall x :: x in p.requests ==> x in db.requests && Keeps(db.tickets, f, x))
      && (Truthy(q.cursor) ==> forall x :: x in p.requests ==> x.id < q.cursor.value)
      && (p.nextCursor.Some? <==> |below| > limit)
      && (p.nextCursor.Some? ==> p.nextCursor == Some(p.requests[|p.requests| - 1].id))
  {
    var f := FilterOf(user, q, ParseScope(q.scope).value);
    var below := Listing(db, f, q.cursor);
    var limit := ClampLimit(q.limit);
    var j := ListingShape(db, f, q.cursor);
    WindowShape(below, limit);
    var p := ListRequests(db, user, q).value;
    assert p == Window(below, limit);
    PrefixFacts(below, |p.requests|);
  }

  /** A prefix of a newest-first list is newest first and holds only rows of the list. */
  lemma PrefixFacts(ms: seq<Request>, n: nat)
    requires StrictlyDesc(ms) && n <= |ms|
    ensures StrictlyDesc(ms[..n]) && forall x :: x in ms[..n] ==> x in ms
  {
    assert forall i :: 0 <= i < n ==> ms[..n][i] == ms[i];
  }

  /** In a newest-first list, the rows below a cursor are a suffix, everything before it at or above the cursor. */
  lemma {:induction false} BelowIsSuffix(ms: seq<Request>, c: int) returns (j: nat)
    requires StrictlyDesc(ms)
    ensures j <= |ms| && Below(ms, c) == ms[j..]
    ensures forall i :: 0 <= i < j ==> ms[i].id >= c
    ensures forall i :: j <= i < |ms| ==> ms[i].id < c
  {
    if ms == [] {
      j := 0;
    } else if ms[0].id < c {
      AllBelow(ms, c);
      j := 0;
    } else {
      SuffixFacts(ms, 1);
      var j' := BelowIsSuffix(ms[1..], c);
      j := j' + 1;
      assert Below(ms, c) == Below(ms[1..], c);
      assert ms[1..][j'..] == ms[j..];
      forall i | 1 <= i < |ms| ensures ms[i] == ms[1..][i - 1] {
      }
    }
  }

  /** A list whose ids are all below c passes WHERE id < c unchanged. */
  lemma {:induction false} AllBelow(ms: seq<Request>, c: int)
    requires forall i :: 0 <= i < |ms| ==> ms[i].id < c
    ensures Below(ms, c) == ms
  {
    if ms != [] {
      AllBelow(ms[1..], c);
      assert [ms[0]] + ms[1..] == ms;
    }
  }

  /** Cutting a newest-first list at the id of its n-th row leaves exactly the rows after it. */
  lemma BelowAt(ms: seq<Request>, n: nat)
    requires StrictlyDesc(ms) && n < |ms|
    ensures Below(ms, ms[n].id) == ms[n + 1..]
  {
    var c := ms[n].id;
    var j := BelowIsSuffix(ms, c);
    assert j > n by {
      assert !(ms[n].id < c);
    }
    if n + 1 < |ms| {
      assert ms[n + 1].id < c;
    }
    assert j == n + 1;
  }

  /** Two consecutive windows of a newest-first list: the second starts right after the first. */
  lemma TwoWindows(below: seq<Request>, limit: int)
    requires StrictlyDesc(below) && limit >= 1 && |below| > limit
    ensures var p1 := Window(below, limit);
      var p2 := Window(below[limit..], limit);
      var n := if |below| < 2 * limit then |below| else 2 * limit;
      && p1.nextCursor == Some(below[limit - 1].id)
      && p1.requests + p2.requests == below[..n]
      && (forall a, b :: a in p1.requests && b in p2.requests ==> a.id > b.id)
  {
    var rest := below[limit..];
    WindowShape(below, limit);
    WindowShape(rest, limit);
    var p1 := Window(below, limit);
    var p2 := Window(rest, limit);
    var m := |p2.requests|;
    assert m == (if |rest| < limit then |rest| else limit);
    assert p1.requests == below[..limit];
    assert p2.requests == rest[..m] == below[limit..limit + m];
    assert below[..limit] + below[limit..limit + m] == below[..limit + m];
    SplitOrdered(below, limit, limit + m);
  }

  /** In a newest-first list, every row before position k is newer than every row from k to e. */
  lemma SplitOrdered(ms: seq<Request>, k: nat, e: nat)
    requires StrictlyDesc(ms) && k <= e <= |ms|
    ensures forall a, b :: a in ms[..k] && b in ms[k..e] ==> a.id > b.id
  {
    forall a, b | a in ms[..k] && b in ms[k..e] ensures a.id > b.id {
      var i :| 0 <= i < k && ms[..k][i] == a;
      var l :| 0 <= l < e - k && ms[k..e][l] == b;
      assert ms[i] == a && ms[k + l] == b;
    }
  }

  /** The first window's cursor cuts a newest-first list right after that window's last row. */
  lemma WindowsChain(all: seq<Request>, j: nat, limit: int)
    requires StrictlyDesc(all) && j <= |all| && limit >= 1 && |all| - j > limit
    ensures Below(all, all[j + limit - 1].id) == all[j..][limit..]
    ensures all[j..][limit - 1] == all[j + limit - 1]
  {
    BelowAt(all, j + limit - 1);
    assert all[j + limit..] == all[j..][limit..];
  }

  /** With a scope that parses, list_requests answers the window of the listing. */
  lemma ListRequestsWindow(db: Db, user: User, q: ListQuery, scope: Scope)
    requires Valid(db) && ParseScope(q.scope) == Some(scope)
    ensures ListRequests(db, user, q) == Ok(Window(Listing(db, FilterOf(user, q, scope), q.cursor), ClampLimit(q.limit)))
  {
  }

  /**
   * In a newest-first list, the window taken after a cursor-bearing window's cursor holds the rows
   * right after it: below is the list from some row on, below2 the rows under the cursor.
   */
  lemma SuffixContinues(all: seq<Request>, j: nat, limit: int, below: seq<Request>, below2: seq<Request>)
    requires StrictlyDesc(all) && j <= |all| && limit >= 1 && below == all[j..]
    requires Window(below, limit).nextCursor.Some?
    requires below2 == Below(all, Window(below, limit).nextCursor.value)
    ensures var p1 := Window(below, limit);
      var p2 := Window(below2, limit);
      && p1.requests + p2.requests == below[..if |below| < 2 * limit then |below| else 2 * limit]
      && (forall a, b :: a in p1.requests && b in p2.requests ==> a.id > b.id)
  {
    WindowShape(below, limit);
    SuffixFacts(all, j);
    TwoWindows(below, limit);
    WindowsChain(all, j, limit);
  }

  lemma ListingFromCursor(db: Db, f: Filter, c: int)
    requires Valid(db) && c != 0
    ensures Listing(db, f, Some(c)) == Below(MatchDesc(db.tickets, db.requests, f), c)
  {
  }

  /** Asking the listing again from a window's cursor gives the rows right after that window. */
  lemma ListingContinues(db: Db, f: Filter, cursor: Option<int>, limit: int)
    requires Valid(db) && limit >= 1 && Window(Listing(db, f, cursor), limit).nextCursor.Some?
    ensures var below := Listing(db, f, cursor);
      var p1 := Window(below, limit);
      var p2 := Window(Listing(db, f, p1.nextCursor), limit);
      && p1.requests + p2.requests == below[..if |below| < 2 * limit then |below| else 2 * limit]
      && (forall a, b :: a in p1.requests && b in p2.requests ==> a.id > b.id)
  {
    var all := MatchDesc(db.tickets, db.requests, f);
    var j := ListingSuffix(db, f, cursor);
    var below := Listing(db, f, cursor);
    WindowShape(below, limit);
    var c := Window(below, limit).nextCursor.value;
    assert c == below[limit - 1].id == all[j + limit - 1].id;
    ListingFromCursor(db, f, c);
    SuffixContinues(all, j, limit, below, Listing(db, f, Some(c)));
  }

  /**
   * "Load more" continues the listing: asking again with the returned cursor gives the next rows,
   * so the two pages together are the newest min(2*limit, n) rows, with no overlap and no gap.
   */
  lemma NextPageContinues(db: Db, user: User, q: ListQuery)
    requires Valid(db) && ListRequests(db, user, q).Ok? && ListRequests(db, user, q).value.nextCursor.Some?
    ensures var p1 := ListRequests(db, user, q).value;
      var r2 := ListRequests(db, user, q.(cursor := p1.nextCursor));
      var below := Listing(db, FilterOf(user, q, ParseScope(q.scope).value), q.cursor);
      var limit := ClampLimit(q.limit);
      && r2.Ok?
      && p1.requests + r2.value.requests == below[..if |below| < 2 * limit then |below| else 2 * limit]
      && (forall a, b :: a in p1.requests && b in r2.value.requests ==> a.id > b.id)
  {
    var scope := ParseScope(q.scope).value;
    var f := FilterOf(user, q, scope);
    var limit := ClampLimit(q.limit);
    ListRequestsWindow(db, user, q, scope);
    var p1 := ListRequests(db, user, q).value;
    var q2 := q.(cursor := p1.nextCursor);
    assert FilterOf(user, q2, scope) == f;
    ListRequestsWindow(db, user, q2, scope);
    ListingContinues(db, f, q.cursor, limit);
  }
}
