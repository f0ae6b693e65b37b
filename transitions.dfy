/**
 * The request state machine of the backend: ALLOWED_TRANSITIONS, ACTIVE_STATUSES and
 * HISTORY_STATUSES_LIST (backend/app/routes/core.py), and what they imply about every
 * sequence of status changes made through the table.
 */
module Transitions {
  import opened Models

  /** ALLOWED_TRANSITIONS: the statuses a request in status s may be moved to. */
  function Allowed(s: Status): set<Status> {
    match s
    case Scheduled => {Requested, Canceled}
    case Requested => {Assigned, Retrieving}
    case Assigned => {Retrieving}
    case Retrieving => {Ready}
    case Ready => {PickedUp}
    case PickedUp => {Closed}
    case Closed => {}
    case Canceled => {}
  }

  /** ACTIVE_STATUSES: the "active" list scope and the statuses that block a new request. */
  predicate IsActive(s: Status) {
    s == Scheduled || s == Requested || s == Assigned || s == Retrieving || s == Ready
  }

  /** HISTORY_STATUSES_LIST: the "history" list scope. */
  predicate IsHistory(s: Status) {
    s == Closed || s == Canceled
  }

  /** Position along the lifecycle; every edge of the table climbs it. */
  function Rank(s: Status): nat {
    match s
    case Scheduled => 0
    case Requested => 1
    case Assigned => 2
    case Retrieving => 3
    case Ready => 4
    case PickedUp => 5
    case Closed => 6
    case Canceled => 6
  }

  /** The table only moves a request forward; in particular it has no self-loop. */
  lemma TransitionsMoveForward(from: Status, to: Status)
    requires to in Allowed(from)
    ensures Rank(from) < Rank(to) && from != to
  {
  }

  /** CLOSED and CANCELED, and only they, admit no target; PICKED_UP admits only CLOSED. */
  lemma TerminalStatuses(s: Status)
    ensures Allowed(s) == {} <==> IsHistory(s)
    ensures Allowed(PickedUp) == {Closed}
  {
  }

  /** No edge leads into SCHEDULED, so a request that leaves it never comes back. */
  lemma NothingReentersScheduled(s: Status)
    ensures Scheduled !in Allowed(s)
  {
  }

  /** The active, history and PICKED_UP statuses partition the enum. */
  lemma ScopesPartition(s: Status)
    ensures IsActive(s) ==> !IsHistory(s)
    ensures !IsActive(s) && !IsHistory(s) <==> s == PickedUp
  {
  }

  /** From an active status the table leads to an active status, to PICKED_UP or to CANCELED. */
  lemma ActiveSuccessors(from: Status, to: Status)
    requires IsActive(from) && to in Allowed(from)
    ensures IsActive(to) || to == PickedUp || to == Canceled
  {
  }

  /** A sequence of statuses each reached from the previous one through the table. */
  ghost predicate IsPath(p: seq<Status>) {
    forall i :: 0 <= i < |p| - 1 ==> p[i + 1] in Allowed(p[i])
  }

  /** Along a path, ranks strictly increase and the k-th status has rank at least k above the first. */
  lemma {:induction false} PathClimbs(p: seq<Status>)
    requires IsPath(p)
    ensures forall i, j :: 0 <= i < j < |p| ==> Rank(p[i]) + (j - i) <= Rank(p[j])
  {
    if |p| >= 2 {
      var q := p[1..];
      assert IsPath(q) by {
        forall i | 0 <= i < |q| - 1 ensures q[i + 1] in Allowed(q[i]) {
          assert q[i] == p[i + 1] && q[i + 1] == p[i + 2];
        }
      }
      PathClimbs(q);
      TransitionsMoveForward(p[0], p[1]);
      forall i, j | 0 <= i < j < |p| ensures Rank(p[i]) + (j - i) <= Rank(p[j]) {
        if i == 0 {
          if j > 1 {
            assert q[0] == p[1] && q[j - 1] == p[j];
          }
        } else {
          assert q[i - 1] == p[i] && q[j - 1] == p[j];
        }
      }
    }
  }

  /**
   * A request moved only through the table never revisits a status and makes at most six
   * moves: every status path has at most seven entries.
   */
  lemma PathsAreShortAndSimple(p: seq<Status>)
    requires IsPath(p)
    ensures forall i, j :: 0 <= i < j < |p| ==> p[i] != p[j]
    ensures |p| <= 7
  {
    PathClimbs(p);
    if |p| >= 2 {
      assert Rank(p[0]) + (|p| - 1) <= Rank(p[|p| - 1]);
    }
  }
}
