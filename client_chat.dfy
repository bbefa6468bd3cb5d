/** The chat page's pure parts: the three ways of sending (text, sticker,
    file) as the `send_message` payload they emit, the conversation list that
    grows with every received message, the sender test of a bubble, and the
    recording timer's `mm:ss` text. The selected contact is `None` when no
    conversation is open. */
module ClientChat {
  import opened Common
  import opened Text
  import opened MessageModel
  import ServerIndex

  /** `handleSendMessage`: nothing is sent for blank text or without a
      contact; otherwise the untrimmed text goes out as a text message. */
  function TextPayload(me: Id, selected: Option<Id>, text: string): Option<ServerIndex.Payload> {
    if IsBlank(text) || selected.None? then None
    else Some(ServerIndex.Payload(Some(me), Some(selected.value), Some(text), Some("text"), None, None, None))
  }

  /** `handleStickerSend`. */
  function StickerPayload(me: Id, selected: Option<Id>, sticker: string): Option<ServerIndex.Payload> {
    if selected.None? then None
    else Some(ServerIndex.Payload(Some(me), Some(selected.value), Some(sticker), Some("sticker"), None, None, None))
  }

  /** A chosen file: its name and MIME type. */
  datatype File = File(name: string, mime: string)

  /** `handleFileMessage`: the file name is the content and the file name;
      `fileData` is the data URL of the file, produced outside the model. */
  function FilePayload(me: Id, selected: Option<Id>, file: Option<File>, kind: string,
                       fileData: string): Option<ServerIndex.Payload> {
    if file.None? || selected.None? then None
    else Some(ServerIndex.Payload(Some(me), Some(selected.value), Some(file.value.name), Some(kind),
                                  Some(fileData), Some(file.value.name), Some(file.value.mime)))
  }

  /** A text is sent exactly when it has a non-space character and a contact
      is open, and the server then stores it from me to that contact with the
      text as typed. */
  lemma TextSendStored(me: Id, selected: Option<Id>, text: string, id: Id, now: int)
    ensures TextPayload(me, selected, text).Some? <==> !IsBlank(text) && selected.Some?
    ensures TextPayload(me, selected, text).Some? ==>
      ServerIndex.NewMessage(id, TextPayload(me, selected, text).value, now)
        == Some(Message(id, me, selected.value, text, Text, "", "", "", false, now))
  {
  }

  /** A sticker is sent exactly when a contact is open, and stored as a sticker. */
  lemma StickerSendStored(me: Id, selected: Option<Id>, sticker: string, id: Id, now: int)
    ensures StickerPayload(me, selected, sticker).Some? <==> selected.Some?
    ensures StickerPayload(me, selected, sticker).Some? ==>
      ServerIndex.NewMessage(id, StickerPayload(me, selected, sticker).value, now)
        == Some(Message(id, me, selected.value, sticker, Sticker, "", "", "", false, now))
  {
  }

  /** A file is sent exactly when there is one and a contact is open; the
      server stores it when its kind is one of the enum's names. */
  lemma FileSendStored(me: Id, selected: Option<Id>, file: Option<File>, kind: string, fileData: string,
                       id: Id, now: int)
    ensures FilePayload(me, selected, file, kind, fileData).Some? <==> file.Some? && selected.Some?
    ensures FilePayload(me, selected, file, kind, fileData).Some? && kind != "" ==>
      var m := ServerIndex.NewMessage(id, FilePayload(me, selected, file, kind, fileData).value, now);
      && (m.Some? <==> ParseType(kind).Some?)
      && (m.Some? ==> m.value == Message(id, me, selected.value, file.value.name, ParseType(kind).value,
                                          fileData, file.value.name, file.value.mime, false, now))
  {
  }

  /** `receive_message`: every received message is appended to the open
      conversation, whichever contact it belongs to. */
  function Receive(conversation: seq<Message>, m: Message): (r: seq<Message>)
    ensures |r| == |conversation| + 1 && r[..|conversation|] == conversation && r[|conversation|] == m
  {
    conversation + [m]
  }

  /** The sender of a message as the client holds it: a bare id (from the
      socket) or a populated user. */
  datatype SenderRef = Raw(id: Id) | Populated(user: Id)

  /** `msg.sender === user._id || msg.sender?._id === user._id`. */
  predicate IsSelf(sender: SenderRef, me: Id) {
    (sender.Raw? && sender.id == me) || (sender.Populated? && sender.user == me)
  }

  function SenderId(sender: SenderRef): Id {
    match sender
    case Raw(id) => id
    case Populated(id) => id
  }

  /** Both forms of the sender are recognised: a bubble is mine exactly when its sender's id is mine. */
  lemma IsSelfByIdOnly(sender: SenderRef, me: Id)
    ensures IsSelf(sender, me) <==> SenderId(sender) == me
  {
  }

  /** `formatTime(s)`: minutes and seconds, each padded to two digits. */
  function FormatTime(s: nat): string {
    Pad2(s / 60) + ":" + Pad2(s % 60)
  }

  /** Under 100 minutes the text is `mm:ss` and reads back as the seconds. */
  lemma FormatTimeReadsBack(s: nat)
    requires s < 6000
    ensures var t := FormatTime(s);
      && |t| == 5 && t[2] == ':' && AllDigits(t[..2]) && AllDigits(t[3..])
      && DigitsValue(t[..2]) * 60 + DigitsValue(t[3..]) == s
      && DigitsValue(t[3..]) < 60
  {
    Pad2Exact(s / 60);
    Pad2Exact(s % 60);
    var t := FormatTime(s);
    assert t[..2] == Pad2(s / 60);
    assert t[3..] == Pad2(s % 60);
  }
}
