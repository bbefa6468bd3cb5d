/** The client's views of connection requests: the incoming and sent lists
    of the requests page (the same incoming list is shown on the session
    requests page), the accept and reject buttons, and the contact list the
    sessions and chat pages derive from accepted requests. `me` is the signed-in
    user; populated users are represented by their ids. */
module ClientRequests {
  import opened Common
  import opened RequestModel
  import RequestController

  /** Requests addressed to me that are still pending. */
  function Incoming(requests: seq<Request>, me: Id): (r: seq<Request>)
    ensures forall q :: q in r <==> q in requests && q.receiver == me && q.status == Pending
  {
    var p := (q: Request) => q.receiver == me && q.status == Pending;
    FilterMembers(requests, p);
    Filter(requests, p)
  }

  /** Requests I sent, whatever their status. */
  function Sent(requests: seq<Request>, me: Id): (r: seq<Request>)
    ensures forall q :: q in r <==> q in requests && q.sender == me
  {
    var p := (q: Request) => q.sender == me;
    FilterMembers(requests, p);
    Filter(requests, p)
  }

  /** A request in both lists would be one I sent to myself; the server never stores one. */
  lemma IncomingAndSentDisjoint(requests: seq<Request>, me: Id)
    requires NoSelfRequests(requests)
    ensures forall q :: !(q in Incoming(requests, me) && q in Sent(requests, me))
  {
  }

  /** The two buttons of an incoming request. */
  datatype Answer = Accept | Reject

  function AnswerStatus(a: Answer): string {
    match a
    case Accept => "accepted"
    case Reject => "rejected"
  }

  /** With distinct ids in the store, answering a request from my incoming
      list (taken from the store) never fails: I am its receiver and both
      statuses are ones the server accepts, so only that request changes. */
  lemma AnswerSucceeds(store: seq<Request>, nextId: Id, me: Id, q: Request, a: Answer)
    requires forall i, j :: 0 <= i < j < |store| ==> store[i].id != store[j].id
    requires q in Incoming(store, me)
    ensures var o := RequestController.HandleStep(store, nextId, me, q.id, AnswerStatus(a));
      && o.reply.Ok?
      && o.reply.value == q.(status := if a == Accept then Accepted else Rejected)
      && |o.store| == |store|
      && forall j :: 0 <= j < |store| ==> o.store[j] == (if store[j].id == q.id then o.reply.value else store[j])
  {
    var k :| 0 <= k < |store| && store[k] == q;
    assert IndexOfId(store, q.id) == Some(k);
  }

  /** The other user of a request. */
  function Counterpart(q: Request, me: Id): Id {
    if q.sender == me then q.receiver else q.sender
  }

  /** The contacts: the other user of each accepted request, in list order. */
  function Connections(requests: seq<Request>, me: Id): (r: seq<Id>)
    ensures |r| <= |requests|
    ensures var accepted := Filter(requests, (q: Request) => q.status == Accepted);
      && |r| == |accepted|
      && forall i :: 0 <= i < |r| ==> r[i] == Counterpart(accepted[i], me)
  {
    MapSeq(Filter(requests, (q: Request) => q.status == Accepted), (q: Request) => Counterpart(q, me))
  }

  /** Given the requests the server lists for me (each involves me, none is
      self-addressed), every contact is another user linked to me by an
      accepted request, and every such user is a contact. */
  lemma ConnectionsAreAcceptedPartners(requests: seq<Request>, me: Id)
    requires forall i :: 0 <= i < |requests| ==> RequestController.Involves(requests[i], me)
    requires NoSelfRequests(requests)
    ensures forall c :: c in Connections(requests, me) <==>
      exists q :: q in requests && q.status == Accepted && Between(q, me, c)
    ensures me !in Connections(requests, me)
  {
    forall c ensures c in Connections(requests, me) <==>
      exists q :: q in requests && q.status == Accepted && Between(q, me, c)
    {
      if c in Connections(requests, me) {
        var i := ContactHasRequest(requests, me, c);
      }
      if exists q :: q in requests && q.status == Accepted && Between(q, me, c) {
        var q :| q in requests && q.status == Accepted && Between(q, me, c);
        PartnerIsContact(requests, me, q);
      }
    }
    if me in Connections(requests, me) {
      var i := ContactHasRequest(requests, me, me);
    }
  }

  /** A contact comes from an accepted request between me and them. */
  lemma ContactHasRequest(requests: seq<Request>, me: Id, c: Id) returns (i: nat)
    requires forall i :: 0 <= i < |requests| ==> RequestController.Involves(requests[i], me)
    requires NoSelfRequests(requests)
    requires c in Connections(requests, me)
    ensures i < |requests| && requests[i].status == Accepted && Between(requests[i], me, c) && c != me
  {
    var accepted := Filter(requests, (q: Request) => q.status == Accepted);
    var k :| 0 <= k < |accepted| && MapSeq(accepted, (q: Request) => Counterpart(q, me))[k] == c;
    assert accepted[k] in accepted;
    FilterMembers(requests, (q: Request) => q.status == Accepted);
    i :| 0 <= i < |requests| && requests[i] == accepted[k];
  }

  /** The other user of an accepted request of mine is a contact. */
  lemma PartnerIsContact(requests: seq<Request>, me: Id, q: Request)
    requires q in requests && q.status == Accepted
    ensures Counterpart(q, me) in Connections(requests, me)
  {
    var accepted := Filter(requests, (q: Request) => q.status == Accepted);
    FilterMembers(requests, (q: Request) => q.status == Accepted);
    var k :| 0 <= k < |accepted| && accepted[k] == q;
    assert MapSeq(accepted, (q: Request) => Counterpart(q, me))[k] == Counterpart(q, me);
  }
}
