/** The chat history between the caller and one other user. */
module MessageController {
  import opened Common
  import opened Sorting
  import opened MessageModel

  /** The message went from one of the two users to the other. */
  predicate Between(m: Message, a: Id, b: Id) {
    (m.sender == a && m.receiver == b) || (m.sender == b && m.receiver == a)
  }

  function CreatedKey(m: Message): real {
    m.createdAt as real
  }

  /** `getMessages`: the messages exchanged with `other`, in either direction,
      oldest first. */
  function GetMessages(messages: seq<Message>, caller: Id, other: Id): (r: seq<Message>)
    ensures forall i :: 0 <= i < |r| ==> Between(r[i], caller, other)
    ensures forall m :: multiset(r)[m] == if Between(m, caller, other) then multiset(messages)[m] else 0
    ensures forall i, j :: 0 <= i < j < |r| ==> r[i].createdAt <= r[j].createdAt
  {
    var chat := Filter(messages, (m: Message) => Between(m, caller, other));
    var r := SortBy(chat, CreatedKey);
    forall i | 0 <= i < |r| ensures Between(r[i], caller, other) {
      assert r[i] in multiset(chat);
    }
    r
  }

  /** Both sides of a conversation see the same history, in the same order. */
  lemma GetMessagesSymmetric(messages: seq<Message>, a: Id, b: Id)
    ensures GetMessages(messages, a, b) == GetMessages(messages, b, a)
  {
    FilterSame(messages, (m: Message) => Between(m, a, b), (m: Message) => Between(m, b, a));
  }

  /** A history already in time order is returned in the order it was stored. */
  lemma GetMessagesKeepsStoredOrder(messages: seq<Message>, caller: Id, other: Id)
    requires forall i, j :: 0 <= i < j < |messages| ==> messages[i].createdAt <= messages[j].createdAt
    ensures GetMessages(messages, caller, other) == Filter(messages, (m: Message) => Between(m, caller, other))
  {
    var p := (m: Message) => Between(m, caller, other);
    FilterSorted(messages, p);
    SortSorted(Filter(messages, p), CreatedKey);
  }

  lemma {:induction false} FilterSorted(messages: seq<Message>, p: Message -> bool)
    requires forall i, j :: 0 <= i < j < |messages| ==> messages[i].createdAt <= messages[j].createdAt
    ensures SortedBy(Filter(messages, p), CreatedKey)
  {
    if |messages| > 0 {
      var rest := messages[1..];
      FilterSorted(rest, p);
      var f := Filter(rest, p);
      forall i | 0 <= i < |f| ensures messages[0].createdAt <= f[i].createdAt {
        assert f[i] in multiset(rest);
        var k :| 0 <= k < |rest| && rest[k] == f[i];
        assert rest[k] == messages[k + 1];
      }
    }
  }
}
