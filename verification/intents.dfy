/**
  The part of an Android `Intent` the two screens exchange: which screen to open
  and its string extras. `getStringExtra` yields `null` for a missing extra.
 */
module Intents {
  import opened JavaLang

  datatype Screen = ChatScreen

  datatype Intent = Intent(target: Screen, extras: map<string, string>)

  const ContactNameExtra: string := "contact_name"
  const ContactIdExtra: string := "contact_id"

  /** `intent.getStringExtra(key)`. */
  function GetStringExtra(intent: Intent, key: string): (r: Option<string>)
    ensures r.Some? <==> key in intent.extras
    ensures r.Some? ==> r.value == intent.extras[key]
  {
    if key in intent.extras then Some(intent.extras[key]) else None
  }
}
