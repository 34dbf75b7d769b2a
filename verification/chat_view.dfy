/**
  The chat screen. It opens for one contact, derives the conversation key, and
  keeps a list of display lines that three kinds of callback change:

  - the database listener on `messages/<key>` delivers the whole conversation:
    the list is cleared and rebuilt, one line per record;
  - the user presses send: the input is trimmed and, unless empty, published on
    the conversation's MQTT topic, stored in the database and echoed locally;
  - the MQTT client delivers a payload on the subscribed topic: one line is
    appended, attributed to the contact.

  The outgoing side effects (publish, store) are recorded in a log in the order
  the code issues them. Callbacks are applied one at a time, in the order given.
 */
module ChatView {
  import opened JavaLang
  import opened MessageRecord
  import opened ChatKeys
  import opened Intents
  import Contacts

  /** The label of the user's own lines ("you"). */
  const SelfLabel: string := "Tú"
  /** The quality-of-service level every publish asks for. */
  const PublishQos: nat := 1

  /** What `onCreate` fixes for the lifetime of the screen. */
  datatype Session = Session(
    currentUserId: string,
    contactId: string,
    contactName: Option<string>,
    chatKey: string,
    subscription: Option<string>)   // the topic subscribed to, when the MQTT set-up succeeded

  /** An outgoing side effect: a publish on a topic, or a record stored under `messages/<chatKey>`. */
  datatype Effect =
    | Publish(topic: string, payload: string, qos: nat)
    | Store(chatKey: string, message: Message)

  datatype ChatState = ChatState(
    session: Session,
    lines: seq<string>,    // the list shown
    draft: string,         // the text in the input field
    effects: seq<Effect>)  // outgoing side effects so far, oldest first

  /** A display line: label, colon, space, text. */
  function Line(speaker: string, text: string): string {
    speaker + ": " + text
  }

  // ---------------------------------------------------------------------------
  // Opening the screen

  datatype OpenError = MissingContactId | MissingCurrentUser

  /**
    `onCreate`: a missing `contact_id` extra closes the screen first, a missing
    current user next. Otherwise the key is derived with the current user's id on
    the left, the list and the input start empty, and the MQTT topic is subscribed
    when the client set-up (`mqttReady`) succeeds; a failed set-up only shows a toast.
   */
  function Open(intent: Intent, currentUserId: Option<string>, mqttReady: bool): (r: Result<ChatState, OpenError>)
    ensures r.Err? <==> GetStringExtra(intent, ContactIdExtra).None? || currentUserId.None?
    ensures r.Err? ==> (r.error == MissingContactId <==> GetStringExtra(intent, ContactIdExtra).None?)
    ensures r.Ok? ==> && r.value.session.contactId == GetStringExtra(intent, ContactIdExtra).value
                      && r.value.session.currentUserId == currentUserId.value
                      && r.value.session.contactName == GetStringExtra(intent, ContactNameExtra)
                      && r.value.session.chatKey == ChatKey(currentUserId.value, r.value.session.contactId)
                      && (r.value.session.subscription.Some? <==> mqttReady)
                      && |r.value.lines| == 0 && |r.value.draft| == 0 && |r.value.effects| == 0
  {
    match GetStringExtra(intent, ContactIdExtra)
    case None => Err(MissingContactId)
    case Some(contactId) =>
      match currentUserId
      case None => Err(MissingCurrentUser)
      case Some(me) =>
        var key := ChatKey(me, contactId);
        var session := Session(me, contactId, GetStringExtra(intent, ContactNameExtra), key,
                               if mqttReady then Some(Topic(key)) else None);
        Ok(ChatState(session, [], "", []))
  }

  // ---------------------------------------------------------------------------
  // Sending

  datatype SendStatus = EmptyRejected | PublishFailed | Sent

  datatype SendResult = SendResult(state: ChatState, status: SendStatus)

  /** The user edits the input field. */
  function Edit(s: ChatState, text: string): (r: ChatState)
    ensures r.draft == text
    ensures r.session == s.session && r.lines == s.lines && r.effects == s.effects
  {
    s.(draft := text)
  }

  /**
    `sendMessage`. A draft that trims to nothing is refused before anything else.
    Otherwise the trimmed text is published with QoS 1 on the conversation topic;
    if the publish throws, the handler only shows a toast, so nothing is stored,
    shown or cleared. If it succeeds, the record (current user, contact, text) is
    stored, the line `Tú: <text>` appended and the input cleared.
   */
  function SendMessage(s: ChatState, publishSucceeds: bool): (r: SendResult)
    ensures r.status == EmptyRejected <==> forall k :: 0 <= k < |s.draft| ==> IsTrimmable(s.draft[k])
    ensures r.status == PublishFailed <==> r.status != EmptyRejected && !publishSucceeds
    ensures r.status != Sent ==> r.state == s
    ensures r.status == Sent ==>
              var text := Trim(s.draft);
              && |text| > 0 && IsTrimmed(text)
              && r.state.session == s.session
              && r.state.effects == s.effects + [Publish(Topic(s.session.chatKey), text, PublishQos),
                                                 Store(s.session.chatKey, Create(Some(s.session.currentUserId),
                                                                                 Some(s.session.contactId),
                                                                                 Some(text)))]
              && |r.state.lines| == |s.lines| + 1
              && r.state.lines[..|s.lines|] == s.lines
              && r.state.lines[|s.lines|] == Line(SelfLabel, text)
              && |r.state.draft| == 0
  {
    var text := Trim(s.draft);
    if IsEmpty(text) then SendResult(s, EmptyRejected)
    else if !publishSucceeds then SendResult(s, PublishFailed)
    else
      var published := Publish(Topic(s.session.chatKey), text, PublishQos);
      var stored := Store(s.session.chatKey, Create(Some(s.session.currentUserId), Some(s.session.contactId), Some(text)));
      SendResult(ChatState(s.session, s.lines + [Line(SelfLabel, text)], "", s.effects + [published, stored]), Sent)
  }

  // ---------------------------------------------------------------------------
  // Rebuilding the list from the database

  /** The label of a stored message: `Tú` for the current user's own, the contact's name otherwise. */
  function SenderLabel(m: Message, currentUserId: string, contactName: Option<string>): (r: string)
    requires m.senderId.Some?
    ensures m.senderId == Some(currentUserId) ==> r == SelfLabel
    ensures m.senderId != Some(currentUserId) ==> r == Str(contactName)
  {
    if m.senderId == Some(currentUserId) then SelfLabel else Str(contactName)
  }

  /** The records the deserialiser returned non-null, in snapshot order. */
  function Present(records: seq<Option<Message>>): (ms: seq<Message>)
    ensures |ms| <= |records|
    ensures forall m :: m in ms <==> Some(m) in records
    ensures SendersPresent(records) ==> forall j :: 0 <= j < |ms| ==> ms[j].senderId.Some?
  {
    if |records| == 0 then []
    else (if records[0].Some? then [records[0].value] else []) + Present(records[1..])
  }

  /** No non-null record lacks a sender. */
  predicate SendersPresent(records: seq<Option<Message>>) {
    forall i :: 0 <= i < |records| ==> records[i].Some? ==> records[i].value.senderId.Some?
  }

  /** The exception that ends a snapshot callback: a null sender id at this record index. */
  datatype Crash = NullSenderId(index: nat)

  /**
    The loop of `onDataChange`: null records are skipped; each other record gives
    the line `<label>: <content>`. Comparing a null sender id throws, which ends the
    callback (and the app) at the first such record; the error is its index.
   */
  function Render(records: seq<Option<Message>>, currentUserId: string, contactName: Option<string>)
    : (r: Result<seq<string>, Crash>)
    ensures r.Ok? <==> SendersPresent(records)
    ensures r.Err? ==> && r.error.index < |records|
                       && records[r.error.index].Some? && records[r.error.index].value.senderId.None?
                       && SendersPresent(records[..r.error.index])
    ensures r.Ok? ==> && |r.value| == |Present(records)|
                      && forall j :: 0 <= j < |r.value| ==>
                           r.value[j] == Line(SenderLabel(Present(records)[j], currentUserId, contactName),
                                              Str(Present(records)[j].messageContent))
    decreases |records|
  {
    if |records| == 0 then Ok([])
    else
      var head := records[0];
      if head.Some? && head.value.senderId.None? then Err(NullSenderId(0))
      else
        var rest := Render(records[1..], currentUserId, contactName);
        if rest.Err? then
          var i := rest.error.index;
          assert records[1..][..i] == records[1..i + 1];
          Err(NullSenderId(i + 1))
        else
          var first := if head.Some?
                       then [Line(SenderLabel(head.value, currentUserId, contactName), Str(head.value.messageContent))]
                       else [];
          Ok(first + rest.value)
  }

  /**
    `onDataChange` of the message listener: the shown list becomes exactly the
    rendering of the snapshot; whatever was shown before is dropped.
   */
  function OnSnapshot(s: ChatState, records: seq<Option<Message>>): (r: Result<ChatState, Crash>)
    ensures r.Ok? <==> SendersPresent(records)
    ensures r.Ok? ==> && r.value.session == s.session && r.value.draft == s.draft && r.value.effects == s.effects
                      && |r.value.lines| == |Present(records)|
                      && r.value.lines == Render(records, s.session.currentUserId, s.session.contactName).value
  {
    match Render(records, s.session.currentUserId, s.session.contactName)
    case Err(crash) => Err(crash)
    case Ok(lines) => Ok(s.(lines := lines))
  }

  // ---------------------------------------------------------------------------
  // MQTT arrivals

  /**
    `messageArrived`: the payload is appended under the contact's name, whatever
    the topic and whoever actually published it.
   */
  function MessageArrived(s: ChatState, payload: string): (r: ChatState)
    ensures |r.lines| == |s.lines| + 1
    ensures r.lines[..|s.lines|] == s.lines
    ensures r.lines[|s.lines|] == Line(Str(s.session.contactName), payload)
    ensures r.session == s.session && r.draft == s.draft && r.effects == s.effects
  {
    s.(lines := s.lines + [Line(Str(s.session.contactName), payload)])
  }

  // ---------------------------------------------------------------------------
  // Event traces

  datatype ChatEvent =
    | Typed(text: string)
    | SendClicked(publishSucceeds: bool)
    | SnapshotLoaded(records: seq<Option<Message>>)
    | MqttArrived(payload: string)

  function Step(s: ChatState, e: ChatEvent): Result<ChatState, Crash> {
    match e
    case Typed(text) => Ok(Edit(s, text))
    case SendClicked(ok) => Ok(SendMessage(s, ok).state)
    case SnapshotLoaded(records) => OnSnapshot(s, records)
    case MqttArrived(payload) => Ok(MessageArrived(s, payload))
  }

  /** Applies callbacks in order; a crash ends the run. */
  function Run(s: ChatState, events: seq<ChatEvent>): Result<ChatState, Crash>
    decreases |events|
  {
    if |events| == 0 then Ok(s)
    else match Step(s, events[0])
      case Err(c) => Err(c)
      case Ok(t) => Run(t, events[1..])
  }

  /** A publish of a trimmed, non-empty text on the conversation topic, then the matching record stored. */
  ghost predicate SendPair(p: Effect, q: Effect, session: Session) {
    && p.Publish? && q.Store?
    && p.topic == Topic(session.chatKey) && p.qos == PublishQos
    && |p.payload| > 0 && IsTrimmed(p.payload)
    && q.chatKey == session.chatKey
    && q.message == Create(Some(session.currentUserId), Some(session.contactId), Some(p.payload))
  }

  /** The effect log is a sequence of complete sends, each a publish followed by its store. */
  ghost predicate SendLog(log: seq<Effect>, session: Session)
    decreases |log|
  {
    |log| == 0 || (|log| >= 2 && SendPair(log[0], log[1], session) && SendLog(log[2..], session))
  }

  /** What holds of every state the screen reaches after a successful `onCreate`. */
  ghost predicate Invariant(s: ChatState) {
    && s.session.chatKey == ChatKey(s.session.currentUserId, s.session.contactId)
    && (s.session.subscription.None? || s.session.subscription == Some(Topic(s.session.chatKey)))
    && SendLog(s.effects, s.session)
  }

  lemma OpenEstablishesInvariant(intent: Intent, currentUserId: Option<string>, mqttReady: bool)
    requires Open(intent, currentUserId, mqttReady).Ok?
    ensures Invariant(Open(intent, currentUserId, mqttReady).value)
  {
  }

  lemma {:induction false} SendLogExtend(log: seq<Effect>, p: Effect, q: Effect, session: Session)
    requires SendLog(log, session) && SendPair(p, q, session)
    ensures SendLog(log + [p, q], session)
    decreases |log|
  {
    if |log| > 0 {
      assert (log + [p, q])[2..] == log[2..] + [p, q];
      SendLogExtend(log[2..], p, q, session);
    } else {
      assert (log + [p, q])[2..] == [];
    }
  }

  lemma StepKeepsInvariant(s: ChatState, e: ChatEvent)
    requires Invariant(s) && Step(s, e).Ok?
    ensures Invariant(Step(s, e).value)
    ensures Step(s, e).value.session == s.session
    ensures s.effects <= Step(s, e).value.effects
  {
    if e.SendClicked? && SendMessage(s, e.publishSucceeds).status == Sent {
      var r := SendMessage(s, e.publishSucceeds).state;
      SendLogExtend(s.effects, r.effects[|s.effects|], r.effects[|s.effects| + 1], s.session);
      assert r.effects == s.effects + [r.effects[|s.effects|], r.effects[|s.effects| + 1]];
    }
  }

  /** Every callback keeps the invariant and the session, and only ever extends the effect log. */
  lemma {:induction false} RunKeepsInvariant(s: ChatState, events: seq<ChatEvent>)
    requires Invariant(s) && Run(s, events).Ok?
    ensures Invariant(Run(s, events).value)
    ensures Run(s, events).value.session == s.session
    ensures s.effects <= Run(s, events).value.effects
    decreases |events|
  {
    if |events| > 0 {
      StepKeepsInvariant(s, events[0]);
      RunKeepsInvariant(Step(s, events[0]).value, events[1..]);
    }
  }

  /**
    In a log of complete sends, every publish goes to the conversation topic, and
    every store is immediately preceded by the publish of the same text.
   */
  lemma {:induction false} SendLogShape(log: seq<Effect>, session: Session)
    requires SendLog(log, session)
    ensures forall i :: 0 <= i < |log| && log[i].Publish? ==> log[i].topic == Topic(session.chatKey)
    ensures forall i :: 0 <= i < |log| && log[i].Store? ==>
              && i >= 1 && log[i - 1].Publish?
              && log[i].message.messageContent == Some(log[i - 1].payload)
              && log[i].message.senderId == Some(session.currentUserId)
              && log[i].message.receiverId == Some(session.contactId)
    decreases |log|
  {
    if |log| > 0 {
      SendLogShape(log[2..], session);
      forall i | 2 <= i < |log|
        ensures log[i] == log[2..][i - 2]
      {
      }
    }
  }

  /**
    On every state reached from an opened screen, each publish goes to the topic
    the screen subscribed to, which is also the topic the contact subscribes to
    when it opens its own chat with this user.
   */
  lemma PublishesReachThePeer(s0: ChatState, events: seq<ChatEvent>, peerMqttReady: bool)
    requires Invariant(s0) && Run(s0, events).Ok?
    ensures var s := Run(s0, events).value;
            forall i :: 0 <= i < |s.effects| && s.effects[i].Publish? ==>
              && s.effects[i].topic == Topic(ChatKey(s0.session.contactId, s0.session.currentUserId))
              && (s0.session.subscription.Some? ==> s.effects[i].topic == s0.session.subscription.value)
  {
    RunKeepsInvariant(s0, events);
    SendLogShape(Run(s0, events).value.effects, s0.session);
    ChatKeySymmetric(s0.session.contactId, s0.session.currentUserId);
  }

  /**
    A snapshot replaces the list outright: two screens of the same conversation
    that differ only in what they showed before show the same thing afterwards.
   */
  lemma SnapshotDiscardsEarlierLines(s: ChatState, t: ChatState, records: seq<Option<Message>>)
    requires s.session == t.session
    requires SendersPresent(records)
    ensures OnSnapshot(s, records).value.lines == OnSnapshot(t, records).value.lines
  {
  }

  /**
    The broker delivers a publish to every subscriber of the topic, the publisher
    included. After a successful send, that echo adds a second line with the same
    text, attributed to the contact.
   */
  lemma OwnEchoShownAsContact(s: ChatState)
    requires Invariant(s) && s.session.subscription.Some?
    requires SendMessage(s, true).status == Sent
    ensures var sent := SendMessage(s, true).state;
            var echoed := MessageArrived(sent, sent.effects[|s.effects|].payload);
            && |echoed.lines| == |s.lines| + 2
            && echoed.lines[|s.lines|] == Line(SelfLabel, Trim(s.draft))
            && echoed.lines[|s.lines| + 1] == Line(Str(s.session.contactName), Trim(s.draft))
            && sent.effects[|s.effects|].topic == s.session.subscription.value
  {
  }

  /**
    Tapping a contact and opening the chat it asks for yields a conversation with
    exactly that contact: its name for the labels, its id as the receiver, and the
    key derived from the two ids.
   */
  lemma ContactTapOpensItsChat(c: Contacts.ContactsState, position: nat, me: string, mqttReady: bool)
    requires position < |c.names| && Contacts.Click(c, position).Opened?
    ensures var name := c.names[position];
            var r := Open(Contacts.Click(c, position).intent, Some(me), mqttReady);
            && r.Ok?
            && r.value.session.contactName == Some(name)
            && r.value.session.contactId == c.ids[name]
            && r.value.session.chatKey == ChatKey(me, c.ids[name])
  {
  }
}
