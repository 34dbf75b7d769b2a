/**
  The `Message` record the client stores in the durable database: the sender's
  user id, the receiver's user id and the text. Each field is a Java reference and
  may be null; the no-argument constructor (needed by the database's reflective
  deserialiser) leaves all three null. The Java setters mutate one field; here a
  setter returns the updated value.
 */
module MessageRecord {
  import opened JavaLang

  datatype Message = Message(
    senderId: Option<string>,
    receiverId: Option<string>,
    messageContent: Option<string>)

  /** `new Message()`. */
  function Empty(): (m: Message)
    ensures GetSenderId(m).None? && GetReceiverId(m).None? && GetMessageContent(m).None?
  {
    Message(None, None, None)
  }

  /** `new Message(senderId, receiverId, messageContent)`. */
  function Create(senderId: Option<string>, receiverId: Option<string>, messageContent: Option<string>): (m: Message)
    ensures GetSenderId(m) == senderId
    ensures GetReceiverId(m) == receiverId
    ensures GetMessageContent(m) == messageContent
  {
    Message(senderId, receiverId, messageContent)
  }

  /** `getSenderId()`: writing the value read back into the record changes nothing. */
  function GetSenderId(m: Message): (r: Option<string>)
    ensures m.(senderId := r) == m
  {
    m.senderId
  }

  /** `getReceiverId()`: writing the value read back into the record changes nothing. */
  function GetReceiverId(m: Message): (r: Option<string>)
    ensures m.(receiverId := r) == m
  {
    m.receiverId
  }

  /** `getMessageContent()`: writing the value read back into the record changes nothing. */
  function GetMessageContent(m: Message): (r: Option<string>)
    ensures m.(messageContent := r) == m
  {
    m.messageContent
  }

  /** `setSenderId`: changes the sender and nothing else. */
  function SetSenderId(m: Message, senderId: Option<string>): (r: Message)
    ensures GetSenderId(r) == senderId
    ensures GetReceiverId(r) == GetReceiverId(m)
    ensures GetMessageContent(r) == GetMessageContent(m)
  {
    m.(senderId := senderId)
  }

  /** `setReceiverId`: changes the receiver and nothing else. */
  function SetReceiverId(m: Message, receiverId: Option<string>): (r: Message)
    ensures GetReceiverId(r) == receiverId
    ensures GetSenderId(r) == GetSenderId(m)
    ensures GetMessageContent(r) == GetMessageContent(m)
  {
    m.(receiverId := receiverId)
  }

  /** `setMessageContent`: changes the text and nothing else. */
  function SetMessageContent(m: Message, messageContent: Option<string>): (r: Message)
    ensures GetMessageContent(r) == messageContent
    ensures GetSenderId(r) == GetSenderId(m)
    ensures GetReceiverId(r) == GetReceiverId(m)
  {
    m.(messageContent := messageContent)
  }

  /**
    Filling an empty record through the three setters yields the same record as the
    three-argument constructor, whatever order the setters run in.
   */
  lemma SettersBuildCreate(s: Option<string>, r: Option<string>, c: Option<string>)
    ensures SetMessageContent(SetReceiverId(SetSenderId(Empty(), s), r), c) == Create(s, r, c)
    ensures SetSenderId(SetReceiverId(SetMessageContent(Empty(), c), r), s) == Create(s, r, c)
  {
  }

  /** A second call to a setter overrides the first: each getter sees the last value stored. */
  lemma LastSetWins(m: Message, a: Option<string>, b: Option<string>)
    ensures GetSenderId(SetSenderId(SetSenderId(m, a), b)) == b
    ensures GetReceiverId(SetReceiverId(SetReceiverId(m, a), b)) == b
    ensures GetMessageContent(SetMessageContent(SetMessageContent(m, a), b)) == b
  {
  }
}
