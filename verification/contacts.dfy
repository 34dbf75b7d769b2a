/**
  The contacts screen. Its state is the list of contact names shown and a map from
  a name to the contact's user id. Database callbacks become explicit events:

  - the contact-list listener fires: both collections are cleared and one detail
    lookup is requested per contact id;
  - a detail lookup answers: if the user node exists and has a name, the name is
    appended and the map entry for it (over)written;
  - the user taps a row: the name's id is looked up and the chat opened, or an
    error is reported;
  - the user asks to add a contact by e-mail: the trimmed address is checked for
    emptiness, then every matching user is written under the current user's
    `contacts` node.
 */
module Contacts {
  import opened JavaLang
  import opened Intents

  datatype ContactsState = ContactsState(names: seq<string>, ids: map<string, string>)

  /** The answer to one detail lookup: the id asked about, whether its node exists, and its `name` child. */
  datatype Detail = Detail(contactId: string, nodeExists: bool, name: Option<string>)

  /** The state `onCreate` sets up: an empty list and an empty map. */
  function Initial(): (s: ContactsState)
    ensures |s.names| == 0 && |s.ids| == 0
  {
    ContactsState([], map[])
  }

  /**
    Every name in the list has an id, and every id in the map belongs to a listed
    name. The code keeps the two collections in step by updating them together.
   */
  ghost predicate Consistent(s: ContactsState) {
    && (forall i :: 0 <= i < |s.names| ==> s.names[i] in s.ids)
    && (forall n :: n in s.ids ==> n in s.names)
  }

  /**
    The contact-list listener: clears both collections and asks for the details of
    each contact id under the current user's `contacts` node, in snapshot order.
   */
  function Reload(s: ContactsState, contactIds: seq<string>): (r: (ContactsState, seq<string>))
    ensures |r.0.names| == 0 && |r.0.ids| == 0
    ensures r.1 == contactIds
  {
    (ContactsState([], map[]), contactIds)
  }

  /** Whether a detail answer adds a row: the node exists and has a non-null name. */
  predicate Accepted(d: Detail) {
    d.nodeExists && d.name.Some?
  }

  /** The detail listener: appends the name and points the map entry for it at this id. */
  function AddDetail(s: ContactsState, d: Detail): (r: ContactsState)
    ensures !Accepted(d) ==> r == s
    ensures Accepted(d) ==> && r.names == s.names + [d.name.value]
                            && r.ids.Keys == s.ids.Keys + {d.name.value}
                            && r.ids[d.name.value] == d.contactId
                            && (forall n :: n in s.ids && n != d.name.value ==> r.ids[n] == s.ids[n])
  {
    if d.nodeExists then
      match d.name
      case Some(name) => ContactsState(s.names + [name], s.ids[name := d.contactId])
      case None => s
    else s
  }

  /** `openChatActivity`: an intent for the chat screen carrying exactly the name and the id. */
  function OpenChatActivity(contactName: string, contactId: string): (i: Intent)
    ensures i.target == ChatScreen
    ensures i.extras.Keys == {ContactNameExtra, ContactIdExtra}
    ensures GetStringExtra(i, ContactNameExtra) == Some(contactName)
    ensures GetStringExtra(i, ContactIdExtra) == Some(contactId)
  {
    Intent(ChatScreen, map[ContactNameExtra := contactName, ContactIdExtra := contactId])
  }

  datatype ClickOutcome = Opened(intent: Intent) | IdNotFound

  /**
    A tap on row `position`: the list view only reports rows it shows. The chat
    opens for the row's name and the id the map holds for that name; a name without
    an id yields the error toast and nothing else.
   */
  function Click(s: ContactsState, position: nat): (r: ClickOutcome)
    requires position < |s.names|
    ensures r.Opened? <==> s.names[position] in s.ids
    ensures r.Opened? ==> && GetStringExtra(r.intent, ContactNameExtra) == Some(s.names[position])
                          && GetStringExtra(r.intent, ContactIdExtra) == Some(s.ids[s.names[position]])
  {
    var name := s.names[position];
    if name in s.ids then Opened(OpenChatActivity(name, s.ids[name])) else IdNotFound
  }

  // ---------------------------------------------------------------------------
  // Event traces

  datatype ContactsEvent = Reloaded(contactIds: seq<string>) | DetailLoaded(detail: Detail)

  function Step(s: ContactsState, e: ContactsEvent): ContactsState {
    match e
    case Reloaded(ids) => Reload(s, ids).0
    case DetailLoaded(d) => AddDetail(s, d)
  }

  /** The state after a sequence of callbacks, applied in order. */
  function Run(s: ContactsState, events: seq<ContactsEvent>): ContactsState
    decreases |events|
  {
    if |events| == 0 then s else Step(Run(s, events[..|events| - 1]), events[|events| - 1])
  }

  lemma InitialConsistent()
    ensures Consistent(Initial())
  {
  }

  lemma StepKeepsConsistent(s: ContactsState, e: ContactsEvent)
    requires Consistent(s)
    ensures Consistent(Step(s, e))
  {
  }

  /** Whatever callbacks arrive, in whatever interleaving, the list and the map stay in step. */
  lemma {:induction false} RunKeepsConsistent(s: ContactsState, events: seq<ContactsEvent>)
    requires Consistent(s)
    ensures Consistent(Run(s, events))
    decreases |events|
  {
    if |events| > 0 {
      RunKeepsConsistent(s, events[..|events| - 1]);
      StepKeepsConsistent(Run(s, events[..|events| - 1]), events[|events| - 1]);
    }
  }

  /** On a consistent state, and so on every state the screen reaches, a tap always opens a chat. */
  lemma ClickAlwaysOpens(s: ContactsState, position: nat)
    requires Consistent(s) && position < |s.names|
    ensures Click(s, position).Opened?
  {
  }

  /** Every state reachable from `onCreate` is consistent, so the error toast on a tap never shows. */
  lemma {:induction false} ReachableClickOpens(events: seq<ContactsEvent>, position: nat)
    requires position < |Run(Initial(), events).names|
    ensures Click(Run(Initial(), events), position).Opened?
  {
    RunKeepsConsistent(Initial(), events);
  }

  // ---------------------------------------------------------------------------
  // What a batch of detail answers produces

  /** Names of the accepted answers, in arrival order. */
  function AcceptedNames(ds: seq<Detail>): seq<string>
    decreases |ds|
  {
    if |ds| == 0 then []
    else
      var d := ds[|ds| - 1];
      AcceptedNames(ds[..|ds| - 1]) + (if Accepted(d) then [d.name.value] else [])
  }

  /** The id of the last accepted answer carrying `name`, if any. */
  function LatestId(ds: seq<Detail>, name: string): Option<string>
    decreases |ds|
  {
    if |ds| == 0 then None
    else
      var d := ds[|ds| - 1];
      if Accepted(d) && d.name.value == name then Some(d.contactId) else LatestId(ds[..|ds| - 1], name)
  }

  function Details(ds: seq<Detail>): (es: seq<ContactsEvent>)
    ensures |es| == |ds|
    ensures forall i :: 0 <= i < |ds| ==> es[i] == DetailLoaded(ds[i])
  {
    seq(|ds|, i requires 0 <= i < |ds| => DetailLoaded(ds[i]))
  }

  /**
    After a reload, the list holds the names of the accepted answers in arrival
    order, and the id a name maps to is the one from the latest answer with that
    name: a later contact with the same name overwrites the earlier one's id.
   */
  lemma {:induction false} DetailsAfterReload(s: ContactsState, contactIds: seq<string>, ds: seq<Detail>)
    ensures Run(s, [Reloaded(contactIds)] + Details(ds)).names == AcceptedNames(ds)
    ensures forall n :: n in Run(s, [Reloaded(contactIds)] + Details(ds)).ids <==> LatestId(ds, n).Some?
    ensures forall n :: n in Run(s, [Reloaded(contactIds)] + Details(ds)).ids ==>
                          Run(s, [Reloaded(contactIds)] + Details(ds)).ids[n] == LatestId(ds, n).value
    decreases |ds|
  {
    var evs := [Reloaded(contactIds)] + Details(ds);
    if |ds| == 0 {
      assert evs[..0] == [];
    } else {
      var ds' := ds[..|ds| - 1];
      DetailsAfterReload(s, contactIds, ds');
      assert evs[..|evs| - 1] == [Reloaded(contactIds)] + Details(ds');
    }
  }

  /**
    Two contacts that share a display name share one row target: tapping the first
    row opens the chat with the contact whose details arrived last.
   */
  lemma DuplicateNameOpensLatest(s: ContactsState, contactIds: seq<string>, name: string, id1: string, id2: string)
    ensures var r := Run(s, [Reloaded(contactIds), DetailLoaded(Detail(id1, true, Some(name))),
                             DetailLoaded(Detail(id2, true, Some(name)))]);
            && r.names == [name, name]
            && Click(r, 0) == Click(r, 1)
            && Click(r, 0) == Opened(OpenChatActivity(name, id2))
  {
    var evs := [Reloaded(contactIds), DetailLoaded(Detail(id1, true, Some(name))),
                DetailLoaded(Detail(id2, true, Some(name)))];
    assert evs[..1][..0] == [];
    assert evs[..2][..1] == evs[..1];
    assert evs[..3] == evs;
    assert Run(s, evs[..1]) == ContactsState([], map[]);
    assert Run(s, evs[..2]) == ContactsState([name], map[name := id1]);
  }

  // ---------------------------------------------------------------------------
  // Adding a contact by e-mail

  datatype AddRequest = EmptyEmail | QueryByEmail(email: string)

  /**
    `addContact` before the database query: the trimmed input is rejected when it
    is empty, and otherwise becomes the e-mail to look up.
   */
  function RequestAdd(input: string): (r: AddRequest)
    ensures r.EmptyEmail? <==> forall k :: 0 <= k < |input| ==> IsTrimmable(input[k])
    ensures r.QueryByEmail? ==> |r.email| > 0 && IsTrimmed(r.email) && r.email == Trim(input)
  {
    var email := Trim(input);
    if IsEmpty(email) then EmptyEmail else QueryByEmail(email)
  }

  const UsersPrefix: string := "/users/"
  const ContactsSegment: string := "contacts/"

  /** The database path of the flag saying `contactId` is a contact of `currentUserId`. */
  function ContactPath(currentUserId: string, contactId: string): (r: string)
    ensures |r| == |UsersPrefix| + |currentUserId| + 1 + |ContactsSegment| + |contactId|
    ensures r[..|UsersPrefix|] == UsersPrefix
    ensures r[|UsersPrefix|..|UsersPrefix| + |currentUserId|] == currentUserId
    ensures r[|UsersPrefix| + |currentUserId|..|r| - |contactId|] == "/" + ContactsSegment
    ensures r[|r| - |contactId|..] == contactId
  {
    UsersPrefix + currentUserId + "/" + ContactsSegment + contactId
  }

  /** Reads a contact path back into the owner's id and the contact's id. */
  function ParseContactPath(path: string): Option<(string, string)> {
    if |path| < |UsersPrefix| || path[..|UsersPrefix|] != UsersPrefix then None
    else
      var rest := path[|UsersPrefix|..];
      var i := IndexOf(rest, '/');
      if i == -1 then None
      else
        var tail := rest[i + 1..];
        if |tail| < |ContactsSegment| || tail[..|ContactsSegment|] != ContactsSegment then None
        else Some((rest[..i], tail[|ContactsSegment|..]))
  }

  /** A contact path names exactly its owner and contact when the owner id has no slash, as database keys never do. */
  lemma ContactPathRoundTrip(currentUserId: string, contactId: string)
    requires Lacks(currentUserId, '/')
    ensures ParseContactPath(ContactPath(currentUserId, contactId)) == Some((currentUserId, contactId))
  {
    var path := ContactPath(currentUserId, contactId);
    var rest := currentUserId + "/" + ContactsSegment + contactId;
    assert path == UsersPrefix + rest;
    assert path[..|UsersPrefix|] == UsersPrefix && path[|UsersPrefix|..] == rest;
    assert rest == currentUserId + ['/'] + (ContactsSegment + contactId);
    IndexOfJoined(currentUserId, '/', ContactsSegment + contactId);
    assert IndexOf(rest, '/') == |currentUserId|;
    var tail := rest[|currentUserId| + 1..];
    assert rest[..|currentUserId|] == currentUserId;
    assert tail == ContactsSegment + contactId;
    assert tail[..|ContactsSegment|] == ContactsSegment;
    assert tail[|ContactsSegment|..] == contactId;
  }

  datatype LookupOutcome = UserNotFound | WriteContacts(updates: seq<map<string, bool>>)

  /**
    The answer to the e-mail query: no match reports "user not found"; otherwise
    one single-entry update per matching user sets that user's flag to true under
    the current user's `contacts` node.
   */
  function OnUserLookup(currentUserId: string, matchedIds: seq<string>): (r: LookupOutcome)
    ensures r.UserNotFound? <==> |matchedIds| == 0
    ensures r.WriteContacts? ==> |r.updates| == |matchedIds|
    ensures r.WriteContacts? ==> forall i :: 0 <= i < |matchedIds| ==>
              && |r.updates[i]| == 1
              && ContactPath(currentUserId, matchedIds[i]) in r.updates[i]
              && r.updates[i][ContactPath(currentUserId, matchedIds[i])]
  {
    if |matchedIds| == 0 then UserNotFound
    else WriteContacts(seq(|matchedIds|, i requires 0 <= i < |matchedIds| =>
                            map[ContactPath(currentUserId, matchedIds[i]) := true]))
  }

  /** Each update written names the current user as owner and a matched user as the new contact. */
  lemma LookupWritesMatchedContacts(currentUserId: string, matchedIds: seq<string>, i: nat)
    requires Lacks(currentUserId, '/')
    requires OnUserLookup(currentUserId, matchedIds).WriteContacts?
    requires i < |matchedIds|
    ensures forall p :: p in OnUserLookup(currentUserId, matchedIds).updates[i] ==>
              ParseContactPath(p) == Some((currentUserId, matchedIds[i]))
  {
    var u := OnUserLookup(currentUserId, matchedIds).updates[i];
    ContactPathRoundTrip(currentUserId, matchedIds[i]);
    forall p | p in u
      ensures ParseContactPath(p) == Some((currentUserId, matchedIds[i]))
    {
      assert u == map[ContactPath(currentUserId, matchedIds[i]) := true];
    }
  }
}
