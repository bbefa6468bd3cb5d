/** The session requests page: the pending sessions I am asked to mentor,
    the upcoming and past lists, and the buttons that answer or complete a
    session. `now` is the moment the page renders; dates are milliseconds. */
module ClientSessionRequests {
  import opened Common
  import opened SessionModel
  import SessionController

  /** Pending sessions in which I am the mentor. */
  function PendingSessions(sessions: seq<Session>, me: Id): (r: seq<Session>)
    ensures forall s :: s in r <==> s in sessions && s.status == Pending && s.mentor == me
  {
    var p := (s: Session) => s.status == Pending && s.mentor == me;
    FilterMembers(sessions, p);
    Filter(sessions, p)
  }

  /** Scheduled sessions still in the future. */
  function Upcoming(sessions: seq<Session>, now: int): (r: seq<Session>)
    ensures forall s :: s in r <==> s in sessions && s.status == Scheduled && s.date > now
  {
    var p := (s: Session) => s.status == Scheduled && s.date > now;
    FilterMembers(sessions, p);
    Filter(sessions, p)
  }

  /** Completed sessions, and scheduled ones whose date has passed. */
  function Past(sessions: seq<Session>, now: int): (r: seq<Session>)
    ensures forall s :: s in r <==> s in sessions && (s.status == Completed || (s.status == Scheduled && s.date <= now))
  {
    var p := (s: Session) => s.status == Completed || (s.status == Scheduled && s.date <= now);
    FilterMembers(sessions, p);
    Filter(sessions, p)
  }

  /** Every listed session is in exactly one of upcoming and past when it is
      scheduled or completed, and in neither when it is pending or cancelled;
      the two lists together are no longer than the whole. */
  lemma UpcomingAndPastPartition(sessions: seq<Session>, now: int)
    ensures forall s :: s in sessions && (s.status == Scheduled || s.status == Completed) ==>
      (s in Upcoming(sessions, now) <==> s !in Past(sessions, now))
    ensures forall s :: s in sessions && (s.status == Pending || s.status == Cancelled) ==>
      s !in Upcoming(sessions, now) && s !in Past(sessions, now)
    ensures forall s :: s !in sessions ==> s !in Upcoming(sessions, now) && s !in Past(sessions, now)
    ensures |Upcoming(sessions, now)| + |Past(sessions, now)| <= |sessions|
  {
    var up := (s: Session) => s.status == Scheduled && s.date > now;
    var past := (s: Session) => s.status == Completed || (s.status == Scheduled && s.date <= now);
    FilterDisjointLength(sessions, up, past);
  }

  /** Two filters with exclusive predicates keep at most all the elements between them. */
  lemma {:induction false} FilterDisjointLength<T(!new)>(s: seq<T>, p: T -> bool, q: T -> bool)
    requires forall i :: 0 <= i < |s| ==> !(p(s[i]) && q(s[i]))
    ensures |Filter(s, p)| + |Filter(s, q)| <= |s|
  {
    if |s| > 0 {
      FilterDisjointLength(s[1..], p, q);
    }
  }

  /** The buttons: accept (`scheduled`) and reject (`cancelled`) on a pending
      session, "Mark Complete" (`completed`) on an upcoming one. */
  datatype Action = AcceptSession | RejectSession | CompleteSession

  function ActionStatus(a: Action): string {
    match a
    case AcceptSession => "scheduled"
    case RejectSession => "cancelled"
    case CompleteSession => "completed"
  }

  /** The toast after an action: only a `scheduled` reply is called an
      acceptance; every other action, completing included, reads as a rejection. */
  function ActionToast(a: Action): (r: string)
    ensures r == "Session accepted!" <==> a == AcceptSession
    ensures a == CompleteSession ==> r == "Session rejected."
  {
    if ActionStatus(a) == "scheduled" then "Session accepted!" else "Session rejected."
  }

  /** Any of the buttons, on a session of mine taken from a store with
      distinct ids, is accepted by the server, also against the schema as
      written: the session gets exactly that status and nothing else changes. */
  lemma ActionSucceeds(store: seq<Session>, nextId: Id, me: Id, s: Session, a: Action)
    requires forall i, j :: 0 <= i < j < |store| ==> store[i].id != store[j].id
    requires s in store && SessionController.Participant(s, me)
    ensures var o := SessionController.UpdateStepAsWritten(store, nextId, me, s.id, ActionStatus(a), "");
      && o.reply.Ok?
      && StatusName(o.reply.value.status) == ActionStatus(a)
      && o.reply.value == s.(status := o.reply.value.status)
      && |o.store| == |store|
      && forall j :: 0 <= j < |store| ==> o.store[j] == (if store[j].id == s.id then o.reply.value else store[j])
    ensures SessionController.UpdateStep(store, nextId, me, s.id, ActionStatus(a), "")
         == SessionController.UpdateStepAsWritten(store, nextId, me, s.id, ActionStatus(a), "")
  {
    var k :| 0 <= k < |store| && store[k] == s;
    assert IndexOfId(store, s.id) == Some(k);
  }
}
