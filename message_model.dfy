/** The chat `Message` schema and its collection. */
module MessageModel {
  import opened Common

  datatype MessageType = Text | Image | Document | Audio | Voice | Sticker

  function TypeName(t: MessageType): string {
    match t
    case Text => "text"
    case Image => "image"
    case Document => "document"
    case Audio => "audio"
    case Voice => "voice"
    case Sticker => "sticker"
  }

  /** Enum validation of `type`. */
  function ParseType(s: string): (r: Option<MessageType>)
    ensures r.Some? <==> s in {"text", "image", "document", "audio", "voice", "sticker"}
    ensures r.Some? ==> TypeName(r.value) == s
  {
    if s == "text" then Some(Text)
    else if s == "image" then Some(Image)
    else if s == "document" then Some(Document)
    else if s == "audio" then Some(Audio)
    else if s == "voice" then Some(Voice)
    else if s == "sticker" then Some(Sticker)
    else None
  }

  /** `read` defaults to false; no code path sets it. */
  datatype Message = Message(
    id: Id,
    sender: Id,
    receiver: Id,
    content: string,
    mtype: MessageType,
    fileData: string,
    fileName: string,
    fileMime: string,
    read: bool,
    createdAt: int)

  /** The `messages` collection. */
  class Messages {
    var all: seq<Message>
    var nextId: Id

    ghost predicate Valid()
      reads this
    {
      && (forall i :: 0 <= i < |all| ==> all[i].id < nextId)
      && (forall i, j :: 0 <= i < j < |all| ==> all[i].id != all[j].id)
      && (forall i :: 0 <= i < |all| ==> !all[i].read)
    }

    constructor ()
      ensures Valid() && all == [] && nextId == 0
    {
      all := [];
      nextId := 0;
    }

    /** `save()` on a new, unread message, which gets the next id. */
    method Insert(m: Message)
      requires Valid() && m.id == nextId && !m.read
      modifies this
      ensures Valid() && all == old(all) + [m] && nextId == old(nextId) + 1
    {
      ghost var all' := all + [m];
      assert forall i :: 0 <= i < |all| ==> all'[i] == all[i];
      all := all + [m];
      nextId := nextId + 1;
    }
  }
}
