/** Booking and updating mentorship sessions. `caller` is the id the auth
    middleware supplies; `now` is the creation time. A body field that is
    absent is `None`, or the empty string where the handler only tests the
    field for truthiness. Saving runs the schema's enum validator on `status`,
    passed in as `allowed` so that the enum as written and the enum the
    application needs can both be stated. */
module SessionController {
  import opened Common
  import opened Sorting
  import UserModel
  import opened SessionModel

  /** The statuses the application writes: all four, `pending` included. */
  predicate AnyStatus(s: Status) {
    true
  }

  /** `User.findById(id)` on a body field that may be absent. */
  predicate UserExists(users: seq<UserModel.User>, id: Option<Id>) {
    id.Some? && UserModel.IndexOfId(users, id.value).Some?
  }

  /** `createSession` when saving accepts the statuses in `allowed`: an unknown
      mentor or mentee is a 404; a missing date or a status outside the enum
      fails validation (500); otherwise a pending session with the defaults is added. */
  function CreateStepWith(sessions: seq<Session>, nextId: Id, users: seq<UserModel.User>,
                          mentorId: Option<Id>, menteeId: Option<Id>, date: Option<int>,
                          duration: Option<int>, topic: Option<string>, notes: Option<string>,
                          now: int, allowed: Status -> bool): Step<Session, Session>
  {
    if !UserExists(users, mentorId) || !UserExists(users, menteeId) then
      Step(sessions, nextId, Fail(404, "User not found"))
    else if date.None? || !allowed(Pending) then
      Step(sessions, nextId, ServerError())
    else
      var s := Session(nextId, mentorId.value, menteeId.value, date.value, duration.GetOr(DefaultDuration),
                       Pending, "", topic.GetOr(""), notes.GetOr(""), now);
      Step(sessions + [s], nextId + 1, Ok(s))
  }

  /** `createSession` against the schema as written, whose enum lacks `pending`. */
  function CreateStepAsWritten(sessions: seq<Session>, nextId: Id, users: seq<UserModel.User>,
                               mentorId: Option<Id>, menteeId: Option<Id>, date: Option<int>,
                               duration: Option<int>, topic: Option<string>, notes: Option<string>,
                               now: int): Step<Session, Session>
  {
    CreateStepWith(sessions, nextId, users, mentorId, menteeId, date, duration, topic, notes, now, InEnumAsWritten)
  }

  /** As written, no session can ever be created: every request that gets past
      the user lookup fails validation with a 500, and the store is unchanged. */
  lemma CreateAsWrittenAlwaysFails(sessions: seq<Session>, nextId: Id, users: seq<UserModel.User>,
                                   mentorId: Option<Id>, menteeId: Option<Id>, date: Option<int>,
                                   duration: Option<int>, topic: Option<string>, notes: Option<string>,
                                   now: int)
    ensures var o := CreateStepAsWritten(sessions, nextId, users, mentorId, menteeId, date, duration,
                                         topic, notes, now);
      && o.reply.Fail? && o.store == sessions && o.nextId == nextId
      && (UserExists(users, mentorId) && UserExists(users, menteeId) ==> o.reply == ServerError())
  {
    assert !InEnumAsWritten(Pending);
  }

  /** `createSession` with `pending` in the enum, which the rest of the model uses. */
  function CreateStep(sessions: seq<Session>, nextId: Id, users: seq<UserModel.User>,
                      mentorId: Option<Id>, menteeId: Option<Id>, date: Option<int>,
                      duration: Option<int>, topic: Option<string>, notes: Option<string>,
                      now: int): Step<Session, Session>
  {
    CreateStepWith(sessions, nextId, users, mentorId, menteeId, date, duration, topic, notes, now, AnyStatus)
  }

  /** With `pending` allowed, a session is created exactly when both users exist
      and a date is given; it is pending, with no link, 60 minutes long
      unless a duration is given, and stamped with the time of the request. The caller is not consulted at all. */
  lemma CreateSucceedsIff(sessions: seq<Session>, nextId: Id, users: seq<UserModel.User>,
                          mentorId: Option<Id>, menteeId: Option<Id>, date: Option<int>,
                          duration: Option<int>, topic: Option<string>, notes: Option<string>, now: int)
    ensures var o := CreateStep(sessions, nextId, users, mentorId, menteeId, date, duration, topic, notes, now);
      && (o.reply.Ok? <==> UserExists(users, mentorId) && UserExists(users, menteeId) && date.Some?)
      && (o.reply.Ok? ==>
            var s := o.reply.value;
            && o.store == sessions + [s] && o.nextId == nextId + 1 && s.id == nextId
            && s.mentor == mentorId.value && s.mentee == menteeId.value && s.date == date.value
            && s.status == Pending && s.meetingLink == ""
            && (duration.None? ==> s.duration == 60) && (duration.Some? ==> s.duration == duration.value)
            && s.topic == topic.GetOr("") && s.notes == notes.GetOr("") && s.createdAt == now)
      && (o.reply.Fail? ==> o.store == sessions && o.nextId == nextId)
  {
  }

  /** POST /sessions, with `pending` in the enum. */
  method CreateSession(db: Sessions, users: UserModel.Users, mentorId: Option<Id>, menteeId: Option<Id>,
                       date: Option<int>, duration: Option<int>, topic: Option<string>,
                       notes: Option<string>, now: int) returns (r: Reply<Session>)
    requires db.Valid()
    modifies db
    ensures db.Valid()
    ensures Step(db.all, db.nextId, r)
         == CreateStep(old(db.all), old(db.nextId), users.all, mentorId, menteeId, date, duration, topic, notes, now)
  {
    var mentorFound := UserExists(users.all, mentorId);
    var menteeFound := UserExists(users.all, menteeId);
    if !mentorFound || !menteeFound {
      return Fail(404, "User not found");
    }
    if date.None? {
      return ServerError();
    }
    var s := Session(db.nextId, mentorId.value, menteeId.value, date.value, duration.GetOr(DefaultDuration),
                     Pending, "", topic.GetOr(""), notes.GetOr(""), now);
    db.Insert(s);
    r := Ok(s);
  }

  predicate Participant(s: Session, user: Id) {
    s.mentor == user || s.mentee == user
  }

  function DateKey(s: Session): real {
    s.date as real
  }

  /** `getSessions`: the caller's sessions as mentor or mentee, earliest date first. */
  function GetSessions(sessions: seq<Session>, caller: Id): (r: seq<Session>)
    ensures forall i :: 0 <= i < |r| ==> Participant(r[i], caller)
    ensures forall s :: multiset(r)[s] == if Participant(s, caller) then multiset(sessions)[s] else 0
    ensures forall i, j :: 0 <= i < j < |r| ==> r[i].date <= r[j].date
  {
    var mine := Filter(sessions, (s: Session) => Participant(s, caller));
    var r := SortBy(mine, DateKey);
    forall i | 0 <= i < |r| ensures Participant(r[i], caller) {
      assert r[i] in multiset(mine);
    }
    r
  }

  /** The session after `if (status) ...; if (meetingLink) ...`, or `None`
      when the status text is not a status at all (the cast is refused on save). */
  function Updated(s: Session, status: string, meetingLink: string): Option<Session> {
    var withStatus :=
      if status == "" then Some(s)
      else match ParseStatus(status)
        case None => None
        case Some(st) => Some(s.(status := st));
    match withStatus
    case None => None
    case Some(t) => Some(if meetingLink == "" then t else t.(meetingLink := meetingLink))
  }

  /** `updateSessionStatus` when saving accepts the statuses in `allowed`:
      unknown id (404), a caller who is neither mentor nor mentee (401), then a
      non-empty status replaces the status and a non-empty link the link; a
      status outside the enum makes the save fail (500, nothing changes). */
  function UpdateStepWith(sessions: seq<Session>, nextId: Id, caller: Id, id: Id, status: string,
                          meetingLink: string, allowed: Status -> bool): Step<Session, Session>
  {
    match IndexOfId(sessions, id)
    case None => Step(sessions, nextId, Fail(404, "Session not found"))
    case Some(i) =>
      var s := sessions[i];
      if !Participant(s, caller) then Step(sessions, nextId, Fail(401, "Not authorized"))
      else match Updated(s, status, meetingLink)
        case None => Step(sessions, nextId, ServerError())
        case Some(t) =>
          if allowed(t.status) then Step(sessions[i := t], nextId, Ok(t)) else Step(sessions, nextId, ServerError())
  }

  /** `updateSessionStatus` against the schema as written. */
  function UpdateStepAsWritten(sessions: seq<Session>, nextId: Id, caller: Id, id: Id, status: string,
                               meetingLink: string): Step<Session, Session>
  {
    UpdateStepWith(sessions, nextId, caller, id, status, meetingLink, InEnumAsWritten)
  }

  /** As written, a session can never be set back to `pending`. */
  lemma UpdateAsWrittenRefusesPending(sessions: seq<Session>, nextId: Id, caller: Id, id: Id,
                                      meetingLink: string)
    ensures var o := UpdateStepAsWritten(sessions, nextId, caller, id, "pending", meetingLink);
      o.reply.Fail? && o.store == sessions
  {
    assert !InEnumAsWritten(Pending);
  }

  /** `updateSessionStatus` with `pending` in the enum. */
  function UpdateStep(sessions: seq<Session>, nextId: Id, caller: Id, id: Id, status: string,
                      meetingLink: string): Step<Session, Session>
  {
    UpdateStepWith(sessions, nextId, caller, id, status, meetingLink, AnyStatus)
  }

  /** PUT /sessions/:id, with `pending` in the enum. */
  method UpdateSessionStatus(db: Sessions, caller: Id, id: Id, status: string, meetingLink: string)
    returns (r: Reply<Session>)
    requires db.Valid()
    modifies db
    ensures db.Valid()
    ensures Step(db.all, db.nextId, r) == UpdateStep(old(db.all), old(db.nextId), caller, id, status, meetingLink)
  {
    var found := IndexOfId(db.all, id);
    if found.None? {
      return Fail(404, "Session not found");
    }
    var s := db.all[found.value];
    if s.mentor != caller && s.mentee != caller {
      return Fail(401, "Not authorized");
    }
    if status != "" {
      var parsed := ParseStatus(status);
      if parsed.None? {
        return ServerError();
      }
      s := s.(status := parsed.value);
    }
    if meetingLink != "" {
      s := s.(meetingLink := meetingLink);
    }
    db.Replace(found.value, s);
    r := Ok(s);
  }

  /** Only a participant can update a session, only its status and link change,
      and a recognised status or a link is what they become. */
  lemma UpdateChangesOnlyStatusAndLink(sessions: seq<Session>, nextId: Id, caller: Id, id: Id,
                                       status: string, meetingLink: string)
    ensures var o := UpdateStep(sessions, nextId, caller, id, status, meetingLink);
      var f := IndexOfId(sessions, id);
      && o.nextId == nextId && |o.store| == |sessions|
      && (o.reply.Ok? <==>
            f.Some? && Participant(sessions[f.value], caller) && (status == "" || ParseStatus(status).Some?))
      && (o.reply.Ok? ==>
            var s, t := sessions[f.value], o.reply.value;
            && o.store == sessions[f.value := t]
            && t == s.(status := t.status, meetingLink := t.meetingLink)
            && (status == "" ==> t.status == s.status)
            && (status != "" ==> StatusName(t.status) == status)
            && t.meetingLink == if meetingLink == "" then s.meetingLink else meetingLink)
      && (o.reply.Fail? ==> o.store == sessions)
  {
  }

  /** Sending the same update twice leaves the sessions as sending it once. */
  lemma UpdateIdempotent(sessions: seq<Session>, nextId: Id, caller: Id, id: Id,
                         status: string, meetingLink: string)
    ensures var o := UpdateStep(sessions, nextId, caller, id, status, meetingLink);
      UpdateStep(o.store, o.nextId, caller, id, status, meetingLink).store == o.store
  {
    var o := UpdateStep(sessions, nextId, caller, id, status, meetingLink);
    if o.reply.Ok? {
      var i := IndexOfId(sessions, id).value;
      var t := Updated(sessions[i], status, meetingLink).value;
      assert o.store == sessions[i := t];
      IndexOfIdReplace(sessions, i, t, id);
      assert Updated(t, status, meetingLink) == Some(t);
    }
  }
}
