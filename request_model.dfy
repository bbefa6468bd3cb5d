/** The `Request` schema (a connection request between two users) and its collection. */
module RequestModel {
  import opened Common

  datatype Status = Pending | Accepted | Rejected

  datatype Request = Request(
    id: Id,
    sender: Id,
    receiver: Id,
    status: Status,
    message: string,   // defaults to ''
    createdAt: int)

  /** `Request.findById(id)`. */
  function IndexOfId(requests: seq<Request>, id: Id): (r: Option<nat>)
    ensures r.Some? ==> r.value < |requests| && requests[r.value].id == id
    ensures r.Some? ==> forall j :: 0 <= j < r.value ==> requests[j].id != id
    ensures r.None? <==> forall j :: 0 <= j < |requests| ==> requests[j].id != id
  {
    FirstIndex(requests, (q: Request) => q.id == id)
  }

  /** The request links the two users, in either direction. */
  predicate Between(q: Request, a: Id, b: Id) {
    (q.sender == a && q.receiver == b) || (q.sender == b && q.receiver == a)
  }

  /** Nobody has a request addressed to themself. */
  ghost predicate NoSelfRequests(requests: seq<Request>) {
    forall i :: 0 <= i < |requests| ==> requests[i].sender != requests[i].receiver
  }

  /** At most one request per unordered pair of users. */
  ghost predicate OnePerPair(requests: seq<Request>) {
    forall i, j :: 0 <= i < j < |requests| ==>
      !Between(requests[j], requests[i].sender, requests[i].receiver)
  }

  /** The `requests` collection. */
  class Requests {
    var all: seq<Request>
    var nextId: Id

    /** Ids are allocated below `nextId` and distinct, and the unique index on
        (sender, receiver) holds. */
    ghost predicate Valid()
      reads this
    {
      && (forall i :: 0 <= i < |all| ==> all[i].id < nextId)
      && (forall i, j :: 0 <= i < j < |all| ==> all[i].id != all[j].id)
      && (forall i, j :: 0 <= i < j < |all| ==>
            !(all[i].sender == all[j].sender && all[i].receiver == all[j].receiver))
    }

    constructor ()
      ensures Valid() && all == [] && nextId == 0
    {
      all := [];
      nextId := 0;
    }
  }

  /** The unordered-pair rule is stronger than the unique index. */
  lemma OnePerPairImpliesIndex(requests: seq<Request>)
    requires OnePerPair(requests)
    ensures forall i, j :: 0 <= i < j < |requests| ==>
      !(requests[i].sender == requests[j].sender && requests[i].receiver == requests[j].receiver)
  {
  }
}
