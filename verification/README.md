# ConectaMobile chat client, modelled in Dafny

ConectaMobile is an Android chat client. A user picks a contact on the contacts
screen and chats with that contact on the chat screen. Messages travel twice: over
an MQTT topic for live delivery, and into a Firebase database node that the chat
screen listens to for history. This project models the parts of the two screens
and the `Message` record that can be stated precisely. Each asynchronous callback
becomes a pure step function over an immutable state.

- `java_lang.dfy` (`JavaLang`): nullable references (`Option`), Java's `"null"`
  in string concatenation, `String.trim`, `TextUtils.isEmpty` and
  `String.compareTo`. An `IndexOf` in Java's style (-1 when absent) is a helper
  for reading keys and database paths back into their parts (`SplitChatKey`,
  `ParseContactPath`); the app itself never calls `indexOf`. `compareTo` works on the UTF-16 code units of the
  string, as Java does. The model encodes each string to UTF-16 and proves three
  facts about the result: swapping the operands negates it, it is zero exactly
  on equal strings, and it is negative exactly under the lexicographic order of
  the code units.
- `message.dfy` (`MessageRecord`): the three-field `Message` record, its two
  constructors, getters and setters.
- `chat_key.dfy` (`ChatKeys`): the conversation key. The two user ids are ordered
  by `compareTo` and joined with `_`. The MQTT topic is `chat/messages/<key>`.
  The key is the same from both sides. For ids without `_`, the key can be split
  back into the two ids. Ids that contain `_` can collide, e.g. `a_b`+`c` and
  `a`+`b_c` both give `a_b_c`.
- `intents.dfy` (`Intents`): the string extras passed from one screen to the next.
- `contacts.dfy` (`Contacts`): the contacts screen. Its state is the list of
  names and the name-to-id map. The steps are reload, detail arrival, a tap on a
  row, and the add-contact request with its database update.
- `chat_view.dfy` (`ChatView`): the chat screen. Its state is the session fixed at
  `onCreate`, the shown lines, the input field and a log of outgoing effects.
  The effects are publishes and stores. The events are typing, send, a database
  snapshot and an MQTT arrival.

Observations the lemmas make precise:

- Every state the contacts screen reaches keeps the list and the map in step,
  so tapping a row never shows the "no id" error.
- Two contacts with the same display name share one map entry. Tapping either
  row opens the chat with the contact whose details arrived last
  (`DuplicateNameOpensLatest`).
- The sender subscribes to the topic it publishes on. The broker therefore echoes
  each sent message back, and the echo is appended a second time, labelled with
  the contact's name (`OwnEchoShownAsContact`).
- A snapshot replaces the whole list. A record whose sender id is null makes the
  label comparison throw, and the model reports this as a crash.

Behaviour of the code that the model keeps as it is:

- Key derivation accepts empty ids and ids that contain the separator.
- The local echo is shown only after the MQTT publish succeeds.
- A failed database write is only logged.
- The two delivery paths (MQTT and the database) are never deduplicated or
  reconciled with each other.

## Model

| member | source | states |
|---|---|---|
| JavaLang.Trim | app/src/main/java/com/example/conectamobile/ChatActivity.java:135 | the result is the input minus its leading and then trailing chars at or below U+0020; it is empty exactly when every char is at or below U+0020, and otherwise starts and ends with a char above U+0020 |
| JavaLang.TrimOfPadded | app/src/main/java/com/example/conectamobile/activity_contacts.java:133 | trimming blank padding around a non-empty trimmed core returns exactly that core |
| JavaLang.TrimIdempotent | app/src/main/java/com/example/conectamobile/ChatActivity.java:135 | trimming an already trimmed text changes nothing |
| JavaLang.CompareToAntisymmetric | app/src/main/java/com/example/conectamobile/ChatActivity.java:77 | `a.compareTo(b)` is the negation of `b.compareTo(a)` |
| JavaLang.CompareTo | app/src/main/java/com/example/conectamobile/ChatActivity.java:77 | `compareTo` on the strings' UTF-16 code units is zero exactly on equal strings and negative exactly when the first string's units precede the second's lexicographically |
| JavaLang.IsEmpty | app/src/main/java/com/example/conectamobile/ChatActivity.java:137 | `TextUtils.isEmpty` on a non-null string holds exactly for the empty string |
| JavaLang.Str | app/src/main/java/com/example/conectamobile/ChatActivity.java:121 | concatenating a nullable string yields its text, or `null` for a null reference |
| Intents.GetStringExtra | app/src/main/java/com/example/conectamobile/ChatActivity.java:55-56 | an extra is present exactly when the intent carries the key, and then it is the stored value |
| ChatKeys.ChatKey | app/src/main/java/com/example/conectamobile/ChatActivity.java:77 | the key is one id, `_`, the other id, with the `compareTo`-smaller or equal id first; its length is the sum of the ids' lengths plus one |
| ChatKeys.ChatKeySymmetric | app/src/main/java/com/example/conectamobile/ChatActivity.java:77 | both participants derive the same key, including when the two ids are equal |
| ChatKeys.ChatKeyLesserFirst | app/src/main/java/com/example/conectamobile/ChatActivity.java:77 | when `a.compareTo(b) <= 0` the key from either side is `a_b`, so it begins with the smaller id |
| ChatKeys.ChatKeyExample | app/src/main/java/com/example/conectamobile/ChatActivity.java:77 | users `u1` and `u2` both obtain the key `u1_u2` |
| ChatKeys.ChatKeyRoundTrip | app/src/main/java/com/example/conectamobile/ChatActivity.java:77 | for ids without `_`, splitting the key at its first `_` returns the two ids, the smaller one first |
| ChatKeys.ChatKeyInjective | app/src/main/java/com/example/conectamobile/ChatActivity.java:77 | two pairs of ids without `_` share a key only if they are the same unordered pair |
| ChatKeys.ChatKeyCollision | app/src/main/java/com/example/conectamobile/ChatActivity.java:77 | the unguarded derivation gives the different pairs (`a_b`, `c`) and (`a`, `b_c`) the same key `a_b_c` |
| ChatKeys.Topic | app/src/main/java/com/example/conectamobile/ChatActivity.java:103 | a topic is the prefix `chat/messages/` followed by the key |
| ChatKeys.TopicRoundTrip | app/src/main/java/com/example/conectamobile/ChatActivity.java:146 | stripping the prefix from a topic gives back its key, so distinct keys give distinct topics |
| ChatKeys.TopicSymmetric | app/src/main/java/com/example/conectamobile/ChatActivity.java:103 | both participants subscribe and publish on the same topic |
| MessageRecord.Empty | app/src/main/java/com/example/conectamobile/Message.java:8-10 | the no-argument constructor leaves all three fields null |
| MessageRecord.Create | app/src/main/java/com/example/conectamobile/Message.java:12-16 | the three getters return the constructor's arguments unchanged |
| MessageRecord.GetSenderId | app/src/main/java/com/example/conectamobile/Message.java:18-20 | the getter returns the sender field: storing the value read back into the record leaves it unchanged |
| MessageRecord.GetReceiverId | app/src/main/java/com/example/conectamobile/Message.java:26-28 | the getter returns the receiver field: storing the value read back leaves the record unchanged |
| MessageRecord.GetMessageContent | app/src/main/java/com/example/conectamobile/Message.java:34-36 | the getter returns the content field: storing the value read back leaves the record unchanged |
| MessageRecord.SetSenderId | app/src/main/java/com/example/conectamobile/Message.java:22-24 | the sender getter returns the new value; receiver and content are unchanged |
| MessageRecord.SetReceiverId | app/src/main/java/com/example/conectamobile/Message.java:30-32 | the receiver getter returns the new value; sender and content are unchanged |
| MessageRecord.SetMessageContent | app/src/main/java/com/example/conectamobile/Message.java:38-40 | the content getter returns the new value; sender and receiver are unchanged |
| MessageRecord.SettersBuildCreate | app/src/main/java/com/example/conectamobile/Message.java:8-40 | filling an empty record through the three setters, in either order, equals the three-argument constructor |
| MessageRecord.LastSetWins | app/src/main/java/com/example/conectamobile/Message.java:18-40 | each getter returns the value of the latest call to its setter |
| Contacts.Initial | app/src/main/java/com/example/conectamobile/activity_contacts.java:50-51 | the screen starts with no names and no ids |
| Contacts.Reload | app/src/main/java/com/example/conectamobile/activity_contacts.java:92-98 | a reload empties both the list and the map, whatever they held, and requests one detail lookup per contact id in snapshot order |
| Contacts.AddDetail | app/src/main/java/com/example/conectamobile/activity_contacts.java:112-121 | a missing node or null name changes nothing; otherwise the name is appended, the map gains the name with this id (overwriting an earlier id), and all other entries are unchanged |
| Contacts.OpenChatActivity | app/src/main/java/com/example/conectamobile/activity_contacts.java:173-177 | the intent targets the chat screen and carries exactly `contact_name` = the name and `contact_id` = the id |
| Contacts.Click | app/src/main/java/com/example/conectamobile/activity_contacts.java:66-74 | a tap opens a chat exactly when the row's name is in the map, passing that name and its mapped id; otherwise it reports the error |
| Contacts.StepKeepsConsistent | app/src/main/java/com/example/conectamobile/activity_contacts.java:93-118 | each callback keeps the invariant: every listed name has an id and every mapped name is listed |
| Contacts.RunKeepsConsistent | app/src/main/java/com/example/conectamobile/activity_contacts.java:93-118 | any sequence of reloads and detail arrivals keeps the list and the map in step |
| Contacts.ClickAlwaysOpens | app/src/main/java/com/example/conectamobile/activity_contacts.java:66-74 | on a consistent state every tap opens a chat |
| Contacts.ReachableClickOpens | app/src/main/java/com/example/conectamobile/activity_contacts.java:69-73 | from the initial screen, after any callbacks, the "no id" error branch is never taken |
| Contacts.DetailsAfterReload | app/src/main/java/com/example/conectamobile/activity_contacts.java:112-121 | after a reload the list is the accepted names in arrival order, and each name maps to the id of the latest accepted detail with that name |
| Contacts.DuplicateNameOpensLatest | app/src/main/java/com/example/conectamobile/activity_contacts.java:117-118 | with two contacts of the same name, both rows open the chat with the contact that arrived last |
| Contacts.RequestAdd | app/src/main/java/com/example/conectamobile/activity_contacts.java:133-138 | an input that is all chars at or below U+0020 is rejected before any lookup; otherwise the query is the trimmed, non-empty e-mail |
| Contacts.ContactPath | app/src/main/java/com/example/conectamobile/activity_contacts.java:152 | the update path is `/users/`, the current user's id, `/contacts/`, then the contact's id |
| Contacts.ContactPathRoundTrip | app/src/main/java/com/example/conectamobile/activity_contacts.java:152 | the update path `/users/<me>/contacts/<id>` parses back to the owner and contact ids |
| Contacts.OnUserLookup | app/src/main/java/com/example/conectamobile/activity_contacts.java:143-162 | no match means "user not found"; otherwise there is one single-entry update per matched user, setting that user's contact flag to true |
| Contacts.LookupWritesMatchedContacts | app/src/main/java/com/example/conectamobile/activity_contacts.java:146-152 | every path written names the current user as owner and the matched user as the new contact |
| ChatView.Open | app/src/main/java/com/example/conectamobile/ChatActivity.java:55-88 | opening fails exactly when the contact id or the current user is missing, the contact id being checked first; otherwise the key is derived from (current user, contact), the screen starts empty, and a topic is subscribed exactly when the MQTT set-up succeeds |
| ChatView.Edit | app/src/main/java/com/example/conectamobile/ChatActivity.java:135 | typing replaces the input text and leaves the session, the lines and the effect log unchanged |
| ChatView.SendMessage | app/src/main/java/com/example/conectamobile/ChatActivity.java:134-162 | a draft that is all chars at or below U+0020 is rejected, and a failed publish likewise leaves the whole state (list, input, effect log) unchanged; a successful send logs the publish of the trimmed text (QoS 1, conversation topic) and then the store of (current user, contact, text), appends exactly `Tú: <text>` after the unchanged earlier lines, and clears the input |
| ChatView.SenderLabel | app/src/main/java/com/example/conectamobile/ChatActivity.java:120-121 | a record whose sender equals the current user's id is labelled `Tú`; any other record with a sender gets the contact's name, or `null` when the name is missing. The record must have a sender, since comparing a null sender throws |
| ChatView.Render | app/src/main/java/com/example/conectamobile/ChatActivity.java:116-123 | without null senders, the result has one line per non-null record in snapshot order, labelled `Tú` for the current user's records and with the contact's name otherwise; a null sender fails at the first such record |
| ChatView.OnSnapshot | app/src/main/java/com/example/conectamobile/ChatActivity.java:115-125 | a snapshot succeeds exactly when no non-null record lacks a sender; it then replaces the lines with exactly the rendering of the snapshot (one labelled line per non-null record, in order) and leaves session, input and effects unchanged |
| ChatView.SnapshotDiscardsEarlierLines | app/src/main/java/com/example/conectamobile/ChatActivity.java:116 | the lines after a snapshot do not depend on the lines shown before it |
| ChatView.MessageArrived | app/src/main/java/com/example/conectamobile/ChatActivity.java:182-185 | an arrival appends exactly `<contact name>: <payload>` (the text `null` for a missing name) after the unchanged earlier lines, whoever published it |
| ChatView.OpenEstablishesInvariant | app/src/main/java/com/example/conectamobile/ChatActivity.java:77-103 | an opened screen has the derived key, a subscription (if any) on that key's topic, and an empty effect log |
| ChatView.StepKeepsInvariant | app/src/main/java/com/example/conectamobile/ChatActivity.java:115-185 | each callback keeps the invariant and the session, and only extends the effect log |
| ChatView.RunKeepsInvariant | app/src/main/java/com/example/conectamobile/ChatActivity.java:115-185 | any sequence of callbacks keeps the invariant and the session, and only extends the effect log |
| ChatView.SendLogShape | app/src/main/java/com/example/conectamobile/ChatActivity.java:144-168 | in the effect log every publish uses the conversation topic, and every store comes right after the publish of the same text, with the current user as sender and the contact as receiver |
| ChatView.PublishesReachThePeer | app/src/main/java/com/example/conectamobile/ChatActivity.java:103-146 | every publish goes to the subscribed topic, which is also the topic the contact computes when opening its chat with this user |
| ChatView.OwnEchoShownAsContact | app/src/main/java/com/example/conectamobile/ChatActivity.java:146-183 | the broker's echo of a sent message adds a second line with the same text, labelled with the contact's name |
| ChatView.ContactTapOpensItsChat | app/src/main/java/com/example/conectamobile/ChatActivity.java:55-77 | opening the chat from a tapped contact gives a session with that contact's name and id and the key derived from the two ids |

## Left out

- Firebase Auth and Database calls are not modelled. The model has no listener
  registration, `push()` key generation or deserialisation. Their results enter
  as event inputs: a snapshot is a sequence of nullable records, a detail answer
  is (id, exists, name), and a query answer is the matched ids. The `exists()`
  of the e-mail query is read as "at least one match".
- The MQTT client is not modelled: no connect, clean session, `onDestroy`
  disconnect or delivery tokens. The set-up's success is a flag to `Open`, and
  each publish's success is a flag to `SendMessage`. The two flags are
  independent, because a client that failed only to subscribe may still publish.
  When creating or connecting the client fails, every later publish throws.
  The independent flags therefore also allow traces the program cannot
  produce: a publish succeeding after a failed set-up.
- The MQTT payload's byte encoding is treated as the identity on text.
- Callbacks that only show a toast are not modelled: `onCancelled`,
  `connectionLost`, the database write's success or failure listeners, and the
  toasts themselves. None of them changes any state.
- Android UI is not modelled: adapters, `notifyDataSetChanged`, `finish()`, the
  edit-profile button and the profile screen. The profile screen is not part of
  this model.
- `getCurrentUser()` returning null, which makes `getUid()` throw, is not
  modelled. The current user's id is an `Option` given to `Open` and is taken to
  be the same in later callbacks. The code reads it again in each callback.
- Asynchronous interleaving is a sequential event trace. A detail answer from
  before a reload can still arrive after it, and the model lets it add its
  name, as the code does.
- A tap requires a row index that exists, because the list view only reports
  shown rows.
- Lone UTF-16 surrogates, legal in a Java `String`, are not representable: a
  Dafny `string` holds Unicode scalar values.
