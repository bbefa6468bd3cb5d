/** Connection requests between users: send, list, accept or reject.
    `caller` is the authenticated user's id that the auth middleware supplies,
    and `now` is the creation timestamp Mongoose records. */
module RequestController {
  import opened Common
  import opened Sorting
  import UserModel
  import opened RequestModel

  /** The message of the reply to a duplicate request, in either direction. */
  const DuplicateMessage := "Request already exists or connected"

  /** The first request linking the two users, either way round. */
  function FindBetween(requests: seq<Request>, a: Id, b: Id): (r: Option<nat>)
    ensures r.Some? ==> r.value < |requests| && Between(requests[r.value], a, b)
    ensures r.None? <==> forall j :: 0 <= j < |requests| ==> !Between(requests[j], a, b)
  {
    FirstIndex(requests, (q: Request) => Between(q, a, b))
  }

  /** `sendRequest`: self, unknown receiver and an existing request in either
      direction are refused in that order; otherwise a pending request is added. */
  function SendStep(requests: seq<Request>, nextId: Id, users: seq<UserModel.User>, caller: Id,
                    receiverId: Id, message: Option<string>, now: int): Step<Request, Request>
  {
    if caller == receiverId then Step(requests, nextId, Fail(400, "Cannot send request to yourself"))
    else if UserModel.IndexOfId(users, receiverId).None? then Step(requests, nextId, Fail(404, "User not found"))
    else if FindBetween(requests, caller, receiverId).Some? then Step(requests, nextId, Fail(400, DuplicateMessage))
    else
      var q := Request(nextId, caller, receiverId, Pending, message.GetOr(""), now);
      Step(requests + [q], nextId + 1, Ok(q))
  }

  /** POST /requests. */
  method SendRequest(db: Requests, users: UserModel.Users, caller: Id, receiverId: Id,
                     message: Option<string>, now: int) returns (r: Reply<Request>)
    requires db.Valid()
    modifies db
    ensures db.Valid()
    ensures Step(db.all, db.nextId, r) == SendStep(old(db.all), old(db.nextId), users.all, caller, receiverId, message, now)
  {
    if caller == receiverId {
      return Fail(400, "Cannot send request to yourself");
    }
    var receiver := UserModel.IndexOfId(users.all, receiverId);
    if receiver.None? {
      return Fail(404, "User not found");
    }
    var existing := FindBetween(db.all, caller, receiverId);
    if existing.Some? {
      return Fail(400, DuplicateMessage);
    }
    var q := Request(db.nextId, caller, receiverId, Pending, message.GetOr(""), now);
    AppendKeepsIndex(db.all, db.nextId, q);
    db.all := db.all + [q];
    db.nextId := db.nextId + 1;
    r := Ok(q);
  }

  /** A request with a fresh id and a new (sender, receiver) pair keeps the unique indexes. */
  lemma AppendKeepsIndex(requests: seq<Request>, nextId: Id, q: Request)
    requires forall i :: 0 <= i < |requests| ==> requests[i].id < nextId
    requires forall i, j :: 0 <= i < j < |requests| ==> requests[i].id != requests[j].id
    requires forall i, j :: 0 <= i < j < |requests| ==>
      !(requests[i].sender == requests[j].sender && requests[i].receiver == requests[j].receiver)
    requires q.id == nextId && forall j :: 0 <= j < |requests| ==> !Between(requests[j], q.sender, q.receiver)
    ensures var s := requests + [q];
      && (forall i :: 0 <= i < |s| ==> s[i].id < nextId + 1)
      && (forall i, j :: 0 <= i < j < |s| ==> s[i].id != s[j].id)
      && (forall i, j :: 0 <= i < j < |s| ==> !(s[i].sender == s[j].sender && s[i].receiver == s[j].receiver))
  {
    var s := requests + [q];
    assert forall i :: 0 <= i < |requests| ==> s[i] == requests[i];
    assert s[|requests|] == q;
  }

  /** A request is created exactly when the receiver is someone else who exists
      and no request links the two users; it is pending, from the caller, and
      carries the message or ''. */
  lemma SendSucceedsIff(requests: seq<Request>, nextId: Id, users: seq<UserModel.User>, caller: Id,
                        receiverId: Id, message: Option<string>, now: int)
    ensures var o := SendStep(requests, nextId, users, caller, receiverId, message, now);
      && (o.reply.Ok? <==>
            && caller != receiverId
            && UserModel.IndexOfId(users, receiverId).Some?
            && forall j :: 0 <= j < |requests| ==> !Between(requests[j], caller, receiverId))
      && (o.reply.Ok? ==>
            && o.store == requests + [o.reply.value] && o.nextId == nextId + 1
            && o.reply.value == Request(nextId, caller, receiverId, Pending, message.GetOr(""), now))
      && (o.reply.Fail? ==> o.store == requests && o.nextId == nextId)
  {
  }

  /** A request already sent the other way blocks the reverse one. */
  lemma SendRefusesReverse(requests: seq<Request>, nextId: Id, users: seq<UserModel.User>, caller: Id,
                           receiverId: Id, message: Option<string>, now: int, k: nat)
    requires k < |requests| && requests[k].sender == receiverId && requests[k].receiver == caller
    requires caller != receiverId && UserModel.IndexOfId(users, receiverId).Some?
    ensures SendStep(requests, nextId, users, caller, receiverId, message, now)
         == Step(requests, nextId, Fail(400, DuplicateMessage))
  {
    assert Between(requests[k], caller, receiverId);
  }

  /** The controller keeps a stronger rule than the unique index: nobody requests
      themself, and each unordered pair of users has at most one request. */
  lemma SendPreservesPairs(requests: seq<Request>, nextId: Id, users: seq<UserModel.User>, caller: Id,
                           receiverId: Id, message: Option<string>, now: int)
    requires NoSelfRequests(requests) && OnePerPair(requests)
    ensures var o := SendStep(requests, nextId, users, caller, receiverId, message, now);
      NoSelfRequests(o.store) && OnePerPair(o.store)
  {
    var o := SendStep(requests, nextId, users, caller, receiverId, message, now);
    if o.reply.Ok? {
      var s := o.store;
      assert forall i :: 0 <= i < |requests| ==> s[i] == requests[i];
      forall i, j | 0 <= i < j < |s| ensures !Between(s[j], s[i].sender, s[i].receiver) {
        if j == |requests| {
          assert !Between(requests[i], caller, receiverId);
        }
      }
    }
  }

  predicate Involves(q: Request, user: Id) {
    q.sender == user || q.receiver == user
  }

  function CreatedKey(q: Request): real {
    q.createdAt as real
  }

  /** `getRequests`: the caller's requests, sent or received, newest first.
      Population of the two user references is not modelled; ids are returned. */
  function GetRequests(requests: seq<Request>, caller: Id): (r: seq<Request>)
    ensures forall i :: 0 <= i < |r| ==> Involves(r[i], caller)
    ensures forall q :: multiset(r)[q] == if Involves(q, caller) then multiset(requests)[q] else 0
    ensures forall i, j :: 0 <= i < j < |r| ==> r[i].createdAt >= r[j].createdAt
  {
    var mine := Filter(requests, (q: Request) => Involves(q, caller));
    var r := SortBy(mine, Negated(CreatedKey));
    DescendingOrder(mine, CreatedKey);
    forall i | 0 <= i < |r| ensures Involves(r[i], caller) {
      assert r[i] in multiset(mine);
    }
    r
  }

  /** `handleRequest`: unknown id, a caller other than the receiver, and a
      status other than "accepted" or "rejected" are refused in that order.
      The current status is not consulted. */
  function HandleStep(requests: seq<Request>, nextId: Id, caller: Id, id: Id, status: string): Step<Request, Request>
  {
    match IndexOfId(requests, id)
    case None => Step(requests, nextId, Fail(404, "Request not found"))
    case Some(i) =>
      var q := requests[i];
      if q.receiver != caller then Step(requests, nextId, Fail(401, "Not authorized"))
      else if status == "accepted" || status == "rejected" then
        var q' := q.(status := if status == "accepted" then Accepted else Rejected);
        Step(requests[i := q'], nextId, Ok(q'))
      else Step(requests, nextId, Fail(400, "Invalid status"))
  }

  /** PUT /requests/:id. */
  method HandleRequest(db: Requests, caller: Id, id: Id, status: string) returns (r: Reply<Request>)
    requires db.Valid()
    modifies db
    ensures db.Valid()
    ensures Step(db.all, db.nextId, r) == HandleStep(old(db.all), old(db.nextId), caller, id, status)
  {
    var found := IndexOfId(db.all, id);
    if found.None? {
      return Fail(404, "Request not found");
    }
    var q := db.all[found.value];
    if q.receiver != caller {
      return Fail(401, "Not authorized");
    }
    if status == "accepted" || status == "rejected" {
      q := q.(status := if status == "accepted" then Accepted else Rejected);
      var s := db.all[found.value := q];
      assert forall j :: 0 <= j < |db.all| ==>
        s[j].id == db.all[j].id && s[j].sender == db.all[j].sender && s[j].receiver == db.all[j].receiver;
      db.all := s;
      r := Ok(q);
    } else {
      r := Fail(400, "Invalid status");
    }
  }

  /** Only the receiver can change a request, only to the status it names, and
      nothing else about any request changes. */
  lemma HandleChangesOnlyStatus(requests: seq<Request>, nextId: Id, caller: Id, id: Id, status: string)
    ensures var o := HandleStep(requests, nextId, caller, id, status);
      && |o.store| == |requests| && o.nextId == nextId
      && (o.reply.Ok? <==>
            && IndexOfId(requests, id).Some? && requests[IndexOfId(requests, id).value].receiver == caller
            && (status == "accepted" || status == "rejected"))
      && (o.reply.Ok? ==>
            var i := IndexOfId(requests, id).value;
            && o.store == requests[i := requests[i].(status := o.reply.value.status)]
            && (o.reply.value.status == Accepted <==> status == "accepted"))
      && (o.reply.Fail? ==> o.store == requests)
  {
  }

  /** A request that was rejected can still be accepted later, and the reverse. */
  lemma HandleReopens(requests: seq<Request>, nextId: Id, caller: Id, id: Id, first: string, second: string)
    requires HandleStep(requests, nextId, caller, id, first).reply.Ok?
    requires second == "accepted" || second == "rejected"
    ensures var o := HandleStep(requests, nextId, caller, id, first);
      var o2 := HandleStep(o.store, o.nextId, caller, id, second);
      o2.reply.Ok? && (o2.reply.value.status == Accepted <==> second == "accepted")
  {
    var i := IndexOfId(requests, id).value;
    var o := HandleStep(requests, nextId, caller, id, first);
    assert forall j :: 0 <= j < |requests| ==> o.store[j].id == requests[j].id;
  }

  /** Changing a status keeps both pair rules. */
  lemma HandlePreservesPairs(requests: seq<Request>, nextId: Id, caller: Id, id: Id, status: string)
    requires NoSelfRequests(requests) && OnePerPair(requests)
    ensures var o := HandleStep(requests, nextId, caller, id, status);
      NoSelfRequests(o.store) && OnePerPair(o.store)
  {
    var o := HandleStep(requests, nextId, caller, id, status);
    assert forall j :: 0 <= j < |requests| ==>
      o.store[j].sender == requests[j].sender && o.store[j].receiver == requests[j].receiver;
  }
}
