/** The `Session` schema (a booked mentorship meeting) and its collection. */
module SessionModel {
  import opened Common

  /** The status values the application uses. `Pending` is written by the
      session controller and read by the client, but the schema's enum as
      written lists only the other three. */
  datatype Status = Pending | Scheduled | Completed | Cancelled

  function StatusName(s: Status): string {
    match s
    case Pending => "pending"
    case Scheduled => "scheduled"
    case Completed => "completed"
    case Cancelled => "cancelled"
  }

  /** Enum validation of `status` with `pending` included. */
  function ParseStatus(s: string): (r: Option<Status>)
    ensures r.Some? <==> s in {"pending", "scheduled", "completed", "cancelled"}
    ensures r.Some? ==> StatusName(r.value) == s
  {
    if s == "pending" then Some(Pending)
    else if s == "scheduled" then Some(Scheduled)
    else if s == "completed" then Some(Completed)
    else if s == "cancelled" then Some(Cancelled)
    else None
  }

  lemma StatusNameRoundTrip(s: Status)
    ensures ParseStatus(StatusName(s)) == Some(s)
  {
  }

  /** The enum exactly as the schema declares it: `pending` is absent. */
  predicate InEnumAsWritten(s: Status) {
    s in {Scheduled, Completed, Cancelled}
  }

  datatype Session = Session(
    id: Id,
    mentor: Id,
    mentee: Id,
    date: int,
    duration: int,      // minutes, defaults to 60
    status: Status,     // defaults to scheduled
    meetingLink: string,
    topic: string,
    notes: string,
    createdAt: int)

  const DefaultDuration: int := 60

  /** `Session.findById(id)`. */
  function IndexOfId(sessions: seq<Session>, id: Id): (r: Option<nat>)
    ensures r.Some? ==> r.value < |sessions| && sessions[r.value].id == id
    ensures r.Some? ==> forall j :: 0 <= j < r.value ==> sessions[j].id != id
    ensures r.None? <==> forall j :: 0 <= j < |sessions| ==> sessions[j].id != id
  {
    FirstIndex(sessions, (s: Session) => s.id == id)
  }

  /** Every id is below the counter, and no two sessions share one. */
  ghost predicate IdsBelow(all: seq<Session>, nextId: Id) {
    && (forall i :: 0 <= i < |all| ==> all[i].id < nextId)
    && (forall i, j :: 0 <= i < j < |all| ==> all[i].id != all[j].id)
  }

  /** A session added with the counter's id keeps the ids below the advanced counter. */
  lemma AppendKeepsIds(all: seq<Session>, nextId: Id, s: Session)
    requires IdsBelow(all, nextId) && s.id == nextId
    ensures IdsBelow(all + [s], nextId + 1)
  {
    var all' := all + [s];
    assert forall i :: 0 <= i < |all| ==> all'[i] == all[i];
  }

  /** A session replaced by one with the same id keeps the ids as they were. */
  lemma ReplaceKeepsIds(all: seq<Session>, nextId: Id, i: nat, s: Session)
    requires IdsBelow(all, nextId) && i < |all| && s.id == all[i].id
    ensures IdsBelow(all[i := s], nextId)
  {
    var all' := all[i := s];
    assert forall j :: 0 <= j < |all| ==> all'[j].id == all[j].id;
  }

  /** Replacing a session by one with the same id keeps every id lookup. */
  lemma IndexOfIdReplace(all: seq<Session>, i: nat, s: Session, id: Id)
    requires i < |all| && s.id == all[i].id
    ensures IndexOfId(all[i := s], id) == IndexOfId(all, id)
  {
    var all' := all[i := s];
    assert forall j :: 0 <= j < |all| ==> all'[j].id == all[j].id;
  }

  /** The `sessions` collection. */
  class Sessions {
    var all: seq<Session>
    var nextId: Id

    ghost predicate Valid()
      reads this
    {
      IdsBelow(all, nextId)
    }

    constructor ()
      ensures Valid() && all == [] && nextId == 0
    {
      all := [];
      nextId := 0;
    }

    /** `save()` on a stored session: the record at `i` is replaced by one with the same id. */
    method Replace(i: nat, s: Session)
      requires Valid() && i < |all| && s.id == all[i].id
      modifies this
      ensures Valid() && all == old(all)[i := s] && nextId == old(nextId)
    {
      ReplaceKeepsIds(all, nextId, i, s);
      all := all[i := s];
    }

    /** `save()` on a new session, which gets the next id. */
    method Insert(s: Session)
      requires Valid() && s.id == nextId
      modifies this
      ensures Valid() && all == old(all) + [s] && nextId == old(nextId) + 1
    {
      AppendKeepsIds(all, nextId, s);
      all := all + [s];
      nextId := nextId + 1;
    }
  }
}
